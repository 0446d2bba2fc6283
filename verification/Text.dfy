/** The few string operations of Go's standard library that the launcher relies on,
    over ASCII text: trimming, upper-casing, splitting and decimal numbers. */
module Text {

  datatype Option<+T> = None | Some(value: T)

  /** The white space that Go's TrimSpace and Fields recognise in ASCII text. */
  predicate IsSpace(c: char) {
    c == ' ' || c == '\t' || c == '\n' || c == '\r' || c == '\U{000B}' || c == '\U{000C}'
  }

  predicate AllSpace(s: string) {
    forall i :: 0 <= i < |s| ==> IsSpace(s[i])
  }

  predicate NoSpace(s: string) {
    forall i :: 0 <= i < |s| ==> !IsSpace(s[i])
  }

  /** Nothing to trim: empty, or a visible character at both ends. */
  predicate Trimmed(s: string) {
    s == "" || (!IsSpace(s[0]) && !IsSpace(s[|s| - 1]))
  }

  function TrimLeft(s: string): string {
    if s != "" && IsSpace(s[0]) then TrimLeft(s[1..]) else s
  }

  function TrimRight(s: string): string {
    if s != "" && IsSpace(s[|s| - 1]) then TrimRight(s[..|s| - 1]) else s
  }

  function TrimSpace(s: string): string {
    TrimRight(TrimLeft(s))
  }

  /** Leading white space never shows in the trimmed text. */
  lemma {:induction false} TrimLeftAfter(a: string, s: string)
    requires AllSpace(a)
    ensures TrimLeft(a + s) == TrimLeft(s)
  {
    if a == "" {
      assert a + s == s;
    } else {
      assert (a + s)[1..] == a[1..] + s;
      TrimLeftAfter(a[1..], s);
    }
  }

  lemma {:induction false} TrimRightBefore(s: string, b: string)
    requires AllSpace(b)
    ensures TrimRight(s + b) == TrimRight(s)
  {
    if b == "" {
      assert s + b == s;
    } else {
      assert (s + b)[..|s + b| - 1] == s + b[..|b| - 1];
      TrimRightBefore(s, b[..|b| - 1]);
    }
  }

  /** TrimSpace is the one visible core between blank ends. */
  lemma TrimCore(a: string, t: string, b: string)
    requires AllSpace(a) && AllSpace(b) && Trimmed(t)
    ensures TrimSpace(a + t + b) == t
  {
    assert a + t + b == a + (t + b);
    TrimLeftAfter(a, t + b);
    if t == "" {
      assert t + b == b + "";
      TrimLeftAfter(b, "");
    } else {
      assert (t + b)[0] == t[0];
      TrimRightBefore(t, b);
    }
  }

  /** Every text has such a core: how it splits into blank ends around it. */
  lemma {:induction false} TrimParts(s: string) returns (a: string, b: string)
    ensures s == a + TrimSpace(s) + b
    ensures AllSpace(a) && AllSpace(b) && Trimmed(TrimSpace(s))
  {
    a := TrimLeftPart(s);
    var l := TrimLeft(s);
    b := TrimRightPart(l);
    assert s == a + l && l == TrimRight(l) + b;
    if TrimRight(l) != "" {
      assert TrimRight(l)[0] == l[0];
    }
  }

  lemma {:induction false} TrimLeftPart(s: string) returns (a: string)
    ensures s == a + TrimLeft(s) && AllSpace(a)
    ensures TrimLeft(s) == "" || !IsSpace(TrimLeft(s)[0])
  {
    hide IsSpace;
    if s != "" && IsSpace(s[0]) {
      var b := TrimLeftPart(s[1..]);
      a := [s[0]] + b;
      assert s == [s[0]] + s[1..];
      assert s == a + TrimLeft(s);
    } else {
      a := "";
    }
  }

  lemma {:induction false} TrimRightPart(s: string) returns (b: string)
    ensures s == TrimRight(s) + b && AllSpace(b)
    ensures TrimRight(s) == "" || !IsSpace(TrimRight(s)[|TrimRight(s)| - 1])
  {
    if s != "" && IsSpace(s[|s| - 1]) {
      b := TrimRightPart(s[..|s| - 1]);
      assert s == s[..|s| - 1] + [s[|s| - 1]];
      b := b + [s[|s| - 1]];
    } else {
      b := "";
    }
  }

  lemma TrimTrimmed(t: string)
    requires Trimmed(t)
    ensures TrimSpace(t) == t
  {
    TrimCore("", t, "");
    assert "" + t + "" == t;
  }

  lemma TrimIdempotent(s: string)
    ensures TrimSpace(TrimSpace(s)) == TrimSpace(s)
  {
    var a, b := TrimParts(s);
    TrimTrimmed(TrimSpace(s));
  }

  lemma BlankIsSpace(s: string)
    requires TrimSpace(s) == ""
    ensures AllSpace(s)
  {
    var a, b := TrimParts(s);
    assert s == a + b;
  }

  function ToUpperChar(c: char): char {
    if 'a' <= c <= 'z' then c - 'a' + 'A' else c
  }

  function ToUpper(s: string): (r: string)
    ensures |r| == |s| && forall i :: 0 <= i < |s| ==> r[i] == ToUpperChar(s[i])
  {
    seq(|s|, i requires 0 <= i < |s| => ToUpperChar(s[i]))
  }

  /** The first position of `c` at or after `from`, or the length of the text. */
  function FindChar(s: string, from: nat, c: char): (r: nat)
    requires from <= |s|
    ensures from <= r <= |s|
    ensures r < |s| ==> s[r] == c
    ensures forall i :: from <= i < r ==> s[i] != c
    decreases |s| - from
  {
    if from == |s| || s[from] == c then from else FindChar(s, from + 1, c)
  }

  /** Decimal text of a natural number, without leading zeros. */
  function Itoa(n: nat): (r: string)
    ensures |r| > 0
  {
    if n < 10 then [Digit(n)] else Itoa(n / 10) + [Digit(n % 10)]
  }

  function Digit(d: nat): (c: char)
    requires d < 10
    ensures IsDigit(c) && DigitValue(c) == d
  {
    '0' + d as char
  }

  predicate IsDigit(c: char) { '0' <= c <= '9' }

  predicate AllDigits(s: string) {
    forall i :: 0 <= i < |s| ==> IsDigit(s[i])
  }

  function DigitValue(c: char): (d: nat)
    requires IsDigit(c)
    ensures d < 10
  {
    (c - '0') as nat
  }

  function Value(s: string): nat
    requires AllDigits(s)
  {
    if s == "" then 0 else Value(s[..|s| - 1]) * 10 + DigitValue(s[|s| - 1])
  }

  lemma ValueAppend(s: string, d: nat)
    requires AllDigits(s) && d < 10
    ensures AllDigits(s + [Digit(d)]) && Value(s + [Digit(d)]) == Value(s) * 10 + d
  {
    hide Digit;
    assert (s + [Digit(d)])[..|s|] == s;
  }

  lemma DivideByTen(n: nat)
    ensures n / 10 * 10 + n % 10 == n && n % 10 < 10
  {
  }

  /** Reading the decimal text of a number gives the number back. */
  lemma {:induction false} ItoaValue(n: nat)
    ensures AllDigits(Itoa(n)) && Value(Itoa(n)) == n
    ensures Itoa(n)[0] == '0' ==> n == 0
    decreases n
  {
    hide AllDigits, Value, Digit;
    DivideByTen(n);
    if n < 10 {
      NoDigits();
      ValueAppend("", n);
      assert "" + [Digit(n)] == [Digit(n)];
      DigitIsZero(n);
    } else {
      ItoaValue(n / 10);
      ValueAppend(Itoa(n / 10), n % 10);
    }
  }

  lemma NoDigits()
    ensures AllDigits("") && Value("") == 0
  {
  }

  lemma DigitIsZero(d: nat)
    requires d < 10
    ensures Digit(d) == '0' ==> d == 0
  {
  }

  lemma ItoaInjective(m: nat, n: nat)
    requires Itoa(m) == Itoa(n)
    ensures m == n
  {
    ItoaValue(m);
    ItoaValue(n);
    hide Itoa, Value;
  }

  // ----- names that are not taken -----

  /** Names in the order they are tried: the stem, then the stem with a number. */
  function Candidate(stem: string, k: nat): string {
    if k == 0 then stem else stem + "-" + Itoa(k)
  }

  lemma CandidatesAreDistinct(stem: string, i: nat, j: nat)
    requires Candidate(stem, i) == Candidate(stem, j)
    ensures i == j
  {
    if i != 0 && j != 0 {
      assert Candidate(stem, i)[|stem| + 1..] == Itoa(i);
      assert Candidate(stem, j)[|stem| + 1..] == Itoa(j);
      ItoaInjective(i, j);
    }
  }

  lemma FewerLeft(keys: set<string>, tried: set<string>, path: string)
    requires path in keys && path !in tried
    ensures |keys - (tried + {path})| < |keys - tried|
  {
    assert keys - (tried + {path}) == (keys - tried) - {path};
  }

  /** The next candidate is none of those before it. */
  lemma NextCandidate(stem: string, n: nat, tried: set<string>)
    requires tried == set i | 0 <= i < n :: Candidate(stem, i)
    ensures Candidate(stem, n) !in tried
    ensures tried + {Candidate(stem, n)} == set i | 0 <= i < n + 1 :: Candidate(stem, i)
  {
    forall i | 0 <= i < n ensures Candidate(stem, i) != Candidate(stem, n) {
      if Candidate(stem, i) == Candidate(stem, n) {
        CandidatesAreDistinct(stem, i, n);
      }
    }
  }

  /** Some name that is not taken, as for a temporary directory. */
  method FreshName(taken: set<string>) returns (name: string)
    ensures name !in taken
  {
    name := *;
    if name !in taken {
      return;
    }
    var k := 0;
    ghost var tried: set<string> := {};
    while true
      invariant tried == set i | 0 <= i < k :: Candidate("tmp", i)
      invariant tried <= taken
      decreases |taken - tried|
    {
      name := Candidate("tmp", k);
      if name !in taken {
        return;
      }
      NextCandidate("tmp", k, tried);
      FewerLeft(taken, tried, name);
      tried := tried + {name};
      k := k + 1;
    }
  }

  // ----- parts of a text -----

  /** The text goes on at `p` as `t` says. */
  predicate At(s: string, p: nat, t: string) {
    p + |t| <= |s| && s[p..p + |t|] == t
  }

  lemma AtParts(s: string, p: nat, a: string, b: string)
    requires At(s, p, a + b)
    ensures At(s, p, a) && At(s, p + |a|, b)
  {
    assert s[p..p + |a + b|][..|a|] == a;
    assert s[p..p + |a + b|][|a|..] == b;
  }

  lemma AtChar(s: string, p: nat, t: string, i: nat)
    requires At(s, p, t) && i < |t|
    ensures s[p + i] == t[i]
  {
    assert s[p..p + |t|][i] == t[i];
  }

  lemma AtBounds(s: string, p: nat, t: string)
    requires At(s, p, t)
    ensures p + |t| <= |s|
  {
  }

  // ----- the byte order of strings -----

  predicate Less(a: string, b: string) {
    b != "" && (a == "" || a[0] < b[0] || (a[0] == b[0] && Less(a[1..], b[1..])))
  }

  lemma {:induction false} LessIsTotal(a: string, b: string)
    ensures a == b || Less(a, b) || Less(b, a)
    ensures !(Less(a, b) && Less(b, a)) && !Less(a, a)
  {
    if a != "" {
      LessIsTotal(a[1..], if b != "" then b[1..] else "");
    }
    if a != "" && b != "" && a[0] == b[0] {
      assert a[1..] == b[1..] ==> a == b by {
        if a[1..] == b[1..] {
          assert a == [a[0]] + a[1..] && b == [b[0]] + b[1..];
        }
      }
    }
  }

  /** The order is that of the first character in which two texts differ, the shorter first. */
  lemma {:induction false} LessIsLexicographic(a: string, b: string)
    ensures Less(a, b) <==> exists k :: 0 <= k <= |a| && k < |b| && a[..k] == b[..k] && (k == |a| || a[k] < b[k])
  {
    if a != "" && b != "" && a[0] == b[0] {
      LessIsLexicographic(a[1..], b[1..]);
      if Less(a, b) {
        var k :| 0 <= k <= |a[1..]| && k < |b[1..]| && a[1..][..k] == b[1..][..k] && (k == |a[1..]| || a[1..][k] < b[1..][k]);
        assert a[..k + 1] == [a[0]] + a[1..][..k] && b[..k + 1] == [b[0]] + b[1..][..k];
        assert k + 1 == |a| || a[k + 1] < b[k + 1];
      }
      if k :| 0 <= k <= |a| && k < |b| && a[..k] == b[..k] && (k == |a| || a[k] < b[k]) {
        assert a[1..][..k - 1] == a[..k][1..] && b[1..][..k - 1] == b[..k][1..];
        assert k - 1 == |a[1..]| || a[1..][k - 1] < b[1..][k - 1];
      }
    } else if Less(a, b) {
      assert a[..0] == b[..0];
    } else if k :| 0 <= k <= |a| && k < |b| && a[..k] == b[..k] && (k == |a| || a[k] < b[k]) {
      assert k > 0 ==> a[..k][0] == b[..k][0];
    }
  }

  lemma {:induction false} LessIsTransitive(a: string, b: string, c: string)
    requires Less(a, b) && Less(b, c)
    ensures Less(a, c)
  {
    if a != "" && a[0] == b[0] && b[0] == c[0] {
      LessIsTransitive(a[1..], b[1..], c[1..]);
    }
  }
}
