/** The strings the dump loop builds from its counter: `str(ctr)`, the file
    name `'Horizon_' + str(ctr)` joined to the output directory with
    `os.path.join`, and the progress message `'Horizont {} is saved'`. */
module Naming {

  /** The character of one decimal digit. */
  function DigitChar(d: nat): (c: char)
    requires d < 10
    ensures '0' <= c <= '9'
  {
    ('0' as int + d) as char
  }

  /** `str(n)` for a non-negative integer: its decimal digits, most
      significant first, without leading zeros. */
  function Decimal(n: nat): string {
    if n < 10 then [DigitChar(n)] else Decimal(n / 10) + [DigitChar(n % 10)]
  }

  /** `str(n)` is a non-empty string of digits with no leading zero. */
  lemma {:induction false} DecimalIsCanonical(n: nat)
    ensures |Decimal(n)| > 0
    ensures forall i :: 0 <= i < |Decimal(n)| ==> '0' <= Decimal(n)[i] <= '9'
    ensures Decimal(n)[0] == '0' ==> n == 0
  {
    if n >= 10 {
      DecimalIsCanonical(n / 10);
      assert Decimal(n)[0] == Decimal(n / 10)[0];
    }
  }

  /** Reads a string of decimal digits back as a number. */
  function ParseDecimal(s: string): int {
    if s == [] then 0
    else 10 * ParseDecimal(s[..|s| - 1]) + (s[|s| - 1] as int - '0' as int)
  }

  lemma {:induction false} DecimalRoundTrip(n: nat)
    ensures ParseDecimal(Decimal(n)) == n
  {
    if n >= 10 {
      DecimalRoundTrip(n / 10);
      var s := Decimal(n);
      assert s[..|s| - 1] == Decimal(n / 10);
    }
  }

  /** Different counters print differently. */
  lemma DecimalInjective(m: nat, n: nat)
    requires Decimal(m) == Decimal(n)
    ensures m == n
  {
    DecimalRoundTrip(m);
    DecimalRoundTrip(n);
  }

  /** `os.path.join(dir, name)` on POSIX: an absolute `name` replaces `dir`;
      otherwise `name` is appended, after a `/` unless `dir` is empty or
      already ends in one. */
  function PathJoin(dir: string, name: string): string {
    if |name| > 0 && name[0] == '/' then name
    else if dir == [] || dir[|dir| - 1] == '/' then dir + name
    else dir + "/" + name
  }

  /** Joining two relative names to the same directory gives the same path
      only if the names are equal. */
  lemma PathJoinInjective(dir: string, a: string, b: string)
    requires |a| > 0 && a[0] != '/' && |b| > 0 && b[0] != '/'
    requires PathJoin(dir, a) == PathJoin(dir, b)
    ensures a == b
  {
    var pre := if dir == [] || dir[|dir| - 1] == '/' then dir else dir + "/";
    assert PathJoin(dir, a) == pre + a;
    assert PathJoin(dir, b) == pre + b;
    assert a == PathJoin(dir, a)[|pre|..];
    assert b == PathJoin(dir, b)[|pre|..];
  }

  const HorizonPrefix: string := "Horizon_"

  /** The path the horizon with counter `id` is written to. */
  function HorizonPath(dir: string, id: nat): string {
    PathJoin(dir, HorizonPrefix + Decimal(id))
  }

  /** The progress message printed after the horizon with counter `id` is written. */
  function SavedMessage(id: nat): string {
    "Horizont " + Decimal(id) + " is saved"
  }

  /** Distinct counters give distinct file paths within one directory. */
  lemma HorizonPathInjective(dir: string, i: nat, j: nat)
    ensures HorizonPath(dir, i) == HorizonPath(dir, j) ==> i == j
  {
    if HorizonPath(dir, i) == HorizonPath(dir, j) {
      var a, b := HorizonPrefix + Decimal(i), HorizonPrefix + Decimal(j);
      PathJoinInjective(dir, a, b);
      assert Decimal(i) == a[|HorizonPrefix|..];
      assert Decimal(j) == b[|HorizonPrefix|..];
      DecimalInjective(i, j);
    }
  }

  /** Distinct counters give distinct progress messages. */
  lemma SavedMessageInjective(i: nat, j: nat)
    ensures SavedMessage(i) == SavedMessage(j) ==> i == j
  {
    if SavedMessage(i) == SavedMessage(j) {
      var m := SavedMessage(i);
      var head, tail := "Horizont ", " is saved";
      assert |Decimal(i)| == |m| - |head| - |tail| == |Decimal(j)|;
      assert Decimal(i) == m[|head|..|m| - |tail|];
      assert Decimal(j) == SavedMessage(j)[|head|..|m| - |tail|];
      DecimalInjective(i, j);
    }
  }
}
