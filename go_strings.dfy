/** The two Go standard-library string operations the resource renamer
    relies on: decimal formatting (strconv.Itoa) and replace-all
    (strings.Replace with n = -1). */
module GoStrings {

  function DigitChar(d: nat): (c: char)
    requires d < 10
    ensures '0' <= c <= '9'
  {
    (48 + d) as char
  }

  /** `s` is made of decimal digits only. */
  predicate AllDigits(s: string) {
    forall i :: 0 <= i < |s| ==> '0' <= s[i] <= '9'
  }

  /** The number a string of decimal digits denotes, most significant digit first. */
  function DecValue(s: string): nat
    requires AllDigits(s)
    decreases |s|
  {
    if s == [] then 0 else DecValue(s[..|s| - 1]) * 10 + (s[|s| - 1] as int - 48)
  }

  /** strconv.Itoa on a non-negative number: the decimal digits denoting
      `n`, with no leading zero. */
  function Itoa(n: nat): (s: string)
    ensures |s| >= 1 && AllDigits(s)
    ensures DecValue(s) == n
    ensures s[0] == '0' <==> n == 0
    ensures n >= 10 ==> |s| >= 2
    decreases n
  {
    if n < 10 then [DigitChar(n)]
    else
      var t := Itoa(n / 10);
      assert (t + [DigitChar(n % 10)])[..|t|] == t;
      t + [DigitChar(n % 10)]
  }

  /** Distinct numbers have distinct decimal forms. */
  lemma {:induction false} ItoaInjective(a: nat, b: nat)
    requires Itoa(a) == Itoa(b)
    ensures a == b
    decreases a
  {
    if a >= 10 && b >= 10 {
      var sa, sb := Itoa(a / 10), Itoa(b / 10);
      assert Itoa(a) == sa + [DigitChar(a % 10)];
      assert Itoa(b) == sb + [DigitChar(b % 10)];
      assert sa == Itoa(a)[..|Itoa(a)| - 1] == Itoa(b)[..|Itoa(b)| - 1] == sb;
      ItoaInjective(a / 10, b / 10);
    }
  }

  /** `name + Itoa(i)` determines `i`. */
  lemma SuffixedInjective(name: string, i: nat, j: nat)
    requires name + Itoa(i) == name + Itoa(j)
    ensures i == j
  {
    assert Itoa(i) == (name + Itoa(i))[|name|..];
    assert Itoa(j) == (name + Itoa(j))[|name|..];
    ItoaInjective(i, j);
  }

  /** strings.Replace(s, pat, rep, -1): every non-overlapping occurrence of
      `pat`, scanning left to right, is replaced by `rep`. */
  function ReplaceAll(s: string, pat: string, rep: string): string
    requires |pat| > 0
    decreases |s|
  {
    if |s| < |pat| then s
    else if s[..|pat|] == pat then rep + ReplaceAll(s[|pat|..], pat, rep)
    else [s[0]] + ReplaceAll(s[1..], pat, rep)
  }

  /** `pat` occurs in `s` starting at index `i`. */
  predicate OccursAt(s: string, pat: string, i: int) {
    0 <= i && i + |pat| <= |s| && s[i..i + |pat|] == pat
  }

  /** A string that does not contain `pat` is left as it is. */
  lemma {:induction false} ReplaceAllNoOccurrence(s: string, pat: string, rep: string)
    requires |pat| > 0
    requires forall i :: !OccursAt(s, pat, i)
    ensures ReplaceAll(s, pat, rep) == s
    decreases |s|
  {
    if |s| >= |pat| {
      assert !OccursAt(s, pat, 0);
      forall i ensures !OccursAt(s[1..], pat, i) {
        if OccursAt(s[1..], pat, i) {
          assert s[1..][i..i + |pat|] == s[i + 1..i + 1 + |pat|];
          assert OccursAt(s, pat, i + 1);
        }
      }
      ReplaceAllNoOccurrence(s[1..], pat, rep);
    }
  }

  /** A replacement at least as long as the pattern never shortens the
      string, and one of the same length keeps its length. */
  lemma {:induction false} ReplaceAllLength(s: string, pat: string, rep: string)
    requires |pat| > 0
    requires |rep| >= |pat|
    ensures |ReplaceAll(s, pat, rep)| >= |s|
    ensures |rep| == |pat| ==> |ReplaceAll(s, pat, rep)| == |s|
    decreases |s|
  {
    if |s| >= |pat| {
      if s[..|pat|] == pat {
        ReplaceAllLength(s[|pat|..], pat, rep);
      } else {
        ReplaceAllLength(s[1..], pat, rep);
      }
    }
  }

  /** The replacement works on substrings, not on name tokens: renaming
      /F1 to /F11 also rewrites the unrelated longer name /F10. */
  lemma PrefixNameIsRewritten()
    ensures ReplaceAll("/F1 /F10", "/F1", "/F11") == "/F11 /F110"
  {
    var s := "/F1 /F10";
    assert s[..3] == "/F1";
    assert s[3..] == " /F10";
    var t := " /F10";
    assert t[0] == ' ' && t[..3][0] == ' ';
    assert t[1..] == "/F10";
    var u := "/F10";
    assert u[..3] == "/F1";
    assert u[3..] == "0";
    assert ReplaceAll("0", "/F1", "/F11") == "0";
    assert ReplaceAll(u, "/F1", "/F11") == "/F11" + "0";
    assert ReplaceAll(t, "/F1", "/F11") == " " + "/F110";
  }
}
