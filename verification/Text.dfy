/** Python string behaviour the runtime relies on: lexicographic order, `strip` and ASCII case folding. */
module Text {

  /** The order of two strings that agree before position `i`. */
  predicate StrLtFrom(a: string, b: string, i: nat)
    requires i <= |a| && i <= |b|
    decreases |a| - i
  {
    if i == |b| then false
    else if i == |a| then true
    else if a[i] != b[i] then a[i] < b[i]
    else StrLtFrom(a, b, i + 1)
  }

  /** Python's `a < b` on strings. */
  predicate StrLt(a: string, b: string) {
    StrLtFrom(a, b, 0)
  }

  predicate StrLe(a: string, b: string) {
    !StrLt(b, a)
  }

  lemma {:induction false} TransitiveFrom(a: string, b: string, c: string, i: nat)
    requires i <= |a| && i <= |b| && i <= |c|
    requires StrLtFrom(a, b, i) && StrLtFrom(b, c, i)
    ensures StrLtFrom(a, c, i)
    decreases |a| - i
  {
    if i < |a| && i < |b| && i < |c| && a[i] == b[i] == c[i] {
      TransitiveFrom(a, b, c, i + 1);
    }
  }

  lemma StrLtTransitive(a: string, b: string, c: string)
    requires StrLt(a, b) && StrLt(b, c)
    ensures StrLt(a, c)
  {
    TransitiveFrom(a, b, c, 0);
  }

  lemma {:induction false} TrichotomyFrom(a: string, b: string, i: nat)
    requires i <= |a| && i <= |b| && a[..i] == b[..i]
    ensures StrLtFrom(a, b, i) || a == b || StrLtFrom(b, a, i)
    ensures !(StrLtFrom(a, b, i) && StrLtFrom(b, a, i))
    decreases |a| - i
  {
    if i < |a| && i < |b| && a[i] == b[i] {
      assert a[..i + 1] == b[..i + 1];
      TrichotomyFrom(a, b, i + 1);
    } else if i == |a| == |b| {
      assert a == a[..i] == b[..i] == b;
    }
  }

  /** Exactly one of less, equal and greater holds. */
  lemma StrLtTrichotomy(a: string, b: string)
    ensures StrLt(a, b) || a == b || StrLt(b, a)
    ensures !(StrLt(a, b) && StrLt(b, a))
    ensures !StrLt(a, a)
  {
    TrichotomyFrom(a, b, 0);
    TrichotomyFrom(a, a, 0);
  }

  lemma StrLtIrreflexive(a: string)
    ensures !StrLt(a, a)
  {
    TrichotomyFrom(a, a, 0);
  }

  /** Whatever stands between two ordered strings is above the lower or below the upper. */
  lemma StrLtSplit(a: string, b: string, c: string)
    requires StrLt(a, c)
    ensures StrLt(a, b) || StrLt(b, c)
  {
    StrLtTrichotomy(a, b);
    if StrLt(b, a) {
      StrLtTransitive(b, a, c);
    }
  }

  // ---- What the order is ----

  /** The strings first differ at `k`, where `a` ends or has the smaller character. */
  predicate FirstDiffers(a: string, b: string, k: nat) {
    k <= |a| && k < |b| && a[..k] == b[..k] && (k == |a| || a[k] < b[k])
  }

  lemma {:induction false} LessDiffers(a: string, b: string, i: nat) returns (k: nat)
    requires i <= |a| && i <= |b| && a[..i] == b[..i] && StrLtFrom(a, b, i)
    ensures FirstDiffers(a, b, k)
    decreases |a| - i
  {
    k := i;
    if i < |a| && a[i] == b[i] {
      assert a[..i + 1] == b[..i + 1];
      k := LessDiffers(a, b, i + 1);
    }
  }

  lemma {:induction false} DiffersIsLess(a: string, b: string, i: nat, k: nat)
    requires FirstDiffers(a, b, k) && i <= k
    ensures StrLtFrom(a, b, i)
    decreases k - i
  {
    if i < k {
      DiffersIsLess(a, b, i + 1, k);
      assert a[i] == a[..k][i] == b[..k][i] == b[i];
    }
  }

  /** The order, character by character. */
  ghost predicate Precedes(a: string, b: string) {
    exists k :: FirstDiffers(a, b, k)
  }

  /** A string is less exactly when, where the two first differ, it ends or has the smaller character. */
  lemma StrLtExactly(a: string, b: string)
    ensures StrLt(a, b) <==> Precedes(a, b)
  {
    if StrLt(a, b) {
      var k := LessDiffers(a, b, 0);
    } else if Precedes(a, b) {
      var k :| FirstDiffers(a, b, k);
      DiffersIsLess(a, b, 0, k);
    }
  }

  /** After a common beginning the first differing characters decide. */
  lemma FirstDifferenceDecides(p: string, x: char, u: string, y: char, v: string)
    requires x != y
    ensures StrLt(p + [x] + u, p + [y] + v) <==> x < y
  {
    var a, b := p + [x] + u, p + [y] + v;
    assert a[..|p|] == p == b[..|p|] && a[|p|] == x && b[|p|] == y;
    if x < y {
      DiffersIsLess(a, b, 0, |p|);
    } else {
      DiffersIsLess(b, a, 0, |p|);
      StrLtTrichotomy(a, b);
    }
  }

  /** A proper beginning of a string is less than it. */
  lemma PrefixIsLess(p: string, u: string)
    requires u != []
    ensures StrLt(p, p + u) && !StrLt(p + u, p)
  {
    assert (p + u)[..|p|] == p[..|p|];
    DiffersIsLess(p, p + u, 0, |p|);
    StrLtTrichotomy(p, p + u);
  }

  /** The code points below 256 that `str.strip` removes. */
  predicate IsSpace(c: char) {
    var n := c as int;
    9 <= n <= 13 || 28 <= n <= 32 || n == 0x85 || n == 0xA0
  }

  /** Tab to carriage return, the four separators, the space, the next-line mark and the no-break space. */
  const WHITESPACE: string :=
    "\t\n\U{0B}\U{0C}\r\U{1C}\U{1D}\U{1E}\U{1F} \U{85}\U{A0}"

  lemma SpaceExactly(c: char)
    ensures IsSpace(c) <==> c in WHITESPACE
  {
  }

  /** The first position from `i` on that is not blank, or the end. */
  function LeftEnd(s: string, i: nat): (r: nat)
    requires i <= |s|
    ensures i <= r <= |s| && (r < |s| ==> !IsSpace(s[r]))
    ensures forall j :: i <= j < r ==> IsSpace(s[j])
    decreases |s| - i
  {
    if i < |s| && IsSpace(s[i]) then LeftEnd(s, i + 1) else i
  }

  /** The least end above `lo` with nothing but blanks from it to `j`. */
  function RightEnd(s: string, lo: nat, j: nat): (r: nat)
    requires lo <= j <= |s|
    ensures lo <= r <= j && (lo < r ==> !IsSpace(s[r - 1]))
    ensures forall k :: r <= k < j ==> IsSpace(s[k])
    decreases j
  {
    if lo < j && IsSpace(s[j - 1]) then RightEnd(s, lo, j - 1) else j
  }

  /** Python's `s.strip()`. */
  function Strip(s: string): string {
    var lo := LeftEnd(s, 0);
    s[lo..RightEnd(s, lo, |s|)]
  }

  /** `strip` takes away exactly the blanks at both ends: what is left starts and ends without one. */
  lemma StripExactly(s: string) returns (lo: nat, hi: nat)
    ensures lo <= hi <= |s| && Strip(s) == s[lo..hi]
    ensures forall i :: 0 <= i < lo || hi <= i < |s| ==> IsSpace(s[i])
    ensures lo < hi ==> !IsSpace(s[lo]) && !IsSpace(s[hi - 1])
  {
    lo := LeftEnd(s, 0);
    hi := RightEnd(s, lo, |s|);
  }

  lemma StripIdempotent(s: string)
    ensures Strip(Strip(s)) == Strip(s)
  {
    var t := Strip(s);
    if t != [] {
      assert !IsSpace(t[0]) && !IsSpace(t[|t| - 1]);
    }
    assert LeftEnd(t, 0) == 0 && RightEnd(t, 0, |t|) == |t|;
    assert t[0..|t|] == t;
  }

  function LowerChar(c: char): char {
    if 'A' <= c <= 'Z' then (c as int + 32) as char else c
  }

  function UpperChar(c: char): char {
    if 'a' <= c <= 'z' then (c as int - 32) as char else c
  }

  function Lower(s: string): (r: string) {
    seq(|s|, i requires 0 <= i < |s| => LowerChar(s[i]))
  }

  function Upper(s: string): (r: string) {
    seq(|s|, i requires 0 <= i < |s| => UpperChar(s[i]))
  }

  const UPPER_LETTERS: string := "ABCDEFGHIJKLMNOPQRSTUVWXYZ"
  const LOWER_LETTERS: string := "abcdefghijklmnopqrstuvwxyz"

  /** The two folds exchange the letters of the two alphabets, place by place. */
  lemma FoldsLetter(k: nat)
    requires k < 26
    ensures LowerChar(UPPER_LETTERS[k]) == LOWER_LETTERS[k] && UpperChar(LOWER_LETTERS[k]) == UPPER_LETTERS[k]
  {
    LetterPlaces(k);
  }

  /** They leave every other character. */
  lemma FoldsNothingElse(c: char)
    ensures c !in UPPER_LETTERS ==> LowerChar(c) == c
    ensures c !in LOWER_LETTERS ==> UpperChar(c) == c
  {
    InAlphabet(c);
  }

  /** A string is folded character by character. */
  lemma FoldsEach(s: string, i: nat)
    requires i < |s|
    ensures |Lower(s)| == |Upper(s)| == |s| && Lower(s)[i] == LowerChar(s[i]) && Upper(s)[i] == UpperChar(s[i])
  {
  }

  lemma LetterPlaces(k: nat)
    requires k < 26
    ensures UPPER_LETTERS[k] == ('A' as int + k) as char && LOWER_LETTERS[k] == ('a' as int + k) as char
  {
  }

  lemma InAlphabet(c: char)
    ensures 'A' <= c <= 'Z' <==> c in UPPER_LETTERS
    ensures 'a' <= c <= 'z' <==> c in LOWER_LETTERS
  {
    if 'A' <= c <= 'Z' {
      LetterPlaces(c as int - 'A' as int);
      assert UPPER_LETTERS[c as int - 'A' as int] == c;
    }
    if 'a' <= c <= 'z' {
      LetterPlaces(c as int - 'a' as int);
      assert LOWER_LETTERS[c as int - 'a' as int] == c;
    }
    LettersAreLetters();
  }

  lemma LettersAreLetters()
    ensures forall c :: c in UPPER_LETTERS ==> 'A' <= c <= 'Z'
    ensures forall c :: c in LOWER_LETTERS ==> 'a' <= c <= 'z'
  {
    forall k: nat | k < 26 ensures 'A' <= UPPER_LETTERS[k] <= 'Z' && 'a' <= LOWER_LETTERS[k] <= 'z' {
      LetterPlaces(k);
    }
  }
}
