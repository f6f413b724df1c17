/**
 * The two JavaScript string operations the cancellation flag goes through:
 * `String.prototype.toLowerCase` and `String.prototype.trim`.
 */
module JsText {

  /** ECMAScript WhiteSpace and LineTerminator code points: what `trim` strips. */
  predicate IsSpace(c: char) {
    var n := c as int;
    (0x09 <= n <= 0x0D) || n == 0x20 || n == 0xA0 || n == 0x1680 ||
    (0x2000 <= n <= 0x200A) || n == 0x2028 || n == 0x2029 || n == 0x202F ||
    n == 0x205F || n == 0x3000 || n == 0xFEFF
  }

  /** Every character of `s` from `lo` up to `hi` is whitespace. */
  predicate SpacesIn(s: string, lo: int, hi: int) {
    forall i :: lo <= i < hi && 0 <= i < |s| ==> IsSpace(s[i])
  }

  predicate AllSpace(s: string) {
    SpacesIn(s, 0, |s|)
  }

  /** Lower case of one character; only the ASCII letters are mapped. */
  function LowerChar(c: char): (r: char)
    ensures 'A' <= c <= 'Z' ==> r as int == c as int + 32
    ensures !('A' <= c <= 'Z') ==> r == c
  {
    if 'A' <= c <= 'Z' then (c as int + 32) as char else c
  }

  /** Lower-casing leaves whitespace, and only whitespace, whitespace. */
  lemma LowerCharSpace(c: char)
    ensures IsSpace(LowerChar(c)) <==> IsSpace(c)
  {
  }

  /** `s.toLowerCase()`, character by character. */
  function Lower(s: string): (r: string)
    ensures |r| == |s|
    ensures forall i :: 0 <= i < |s| ==> r[i] == LowerChar(s[i])
  {
    seq(|s|, i requires 0 <= i < |s| => LowerChar(s[i]))
  }

  /** Where the text of `s` starts when scanning from `i`: the first non-whitespace index, or `|s|`. */
  function TrimStart(s: string, i: nat): (b: nat)
    requires i <= |s|
    ensures i <= b <= |s|
    ensures SpacesIn(s, i, b)
    ensures b < |s| ==> !IsSpace(s[b])
    decreases |s| - i
  {
    if i == |s| || !IsSpace(s[i]) then i else TrimStart(s, i + 1)
  }

  /** Where the text of `s[lo..j]` ends: one past its last non-whitespace character, or `lo`. */
  function TrimEnd(s: string, lo: nat, j: nat): (e: nat)
    requires lo <= j <= |s|
    ensures lo <= e <= j
    ensures SpacesIn(s, e, j)
    ensures lo < e ==> !IsSpace(s[e - 1])
    decreases j - lo
  {
    if j == lo || !IsSpace(s[j - 1]) then j else TrimEnd(s, lo, j - 1)
  }

  /** `s.trim()`: `s` without its leading and trailing whitespace. */
  function Trim(s: string): (t: string)
    ensures |t| <= |s|
    ensures t != [] ==> !IsSpace(t[0]) && !IsSpace(t[|t| - 1])
  {
    var b := TrimStart(s, 0);
    s[b..TrimEnd(s, b, |s|)]
  }

  /**
   * What `trim` returns is the infix of `s` surrounded by whitespace only
   * that neither starts nor ends with whitespace.
   */
  lemma TrimIsInfix(s: string)
    ensures var b := TrimStart(s, 0);
      var e := TrimEnd(s, b, |s|);
      Trim(s) == s[b..e] && SpacesIn(s, 0, b) && SpacesIn(s, e, |s|) &&
      (b < e ==> !IsSpace(s[b]) && !IsSpace(s[e - 1]))
  {
  }

  /** Whitespace around a word that neither starts nor ends with whitespace is exactly what `trim` removes. */
  lemma TrimSurrounded(front: string, word: string, back: string)
    requires AllSpace(front) && AllSpace(back)
    requires word != [] && !IsSpace(word[0]) && !IsSpace(word[|word| - 1])
    ensures Trim(front + word + back) == word
  {
    var s := front + word + back;
    var b, e := |front|, |front| + |word|;
    assert s[b] == word[0] && s[e - 1] == word[|word| - 1];
    assert SpacesIn(s, 0, b) by {
      forall i | 0 <= i < b ensures IsSpace(s[i]) { assert s[i] == front[i]; }
    }
    assert SpacesIn(s, e, |s|) by {
      forall i | e <= i < |s| ensures IsSpace(s[i]) { assert s[i] == back[i - e]; }
    }
    StartStopsAt(s, 0, b);
    EndStopsAt(s, b, e, |s|);
    assert s[b..e] == word;
  }

  lemma {:induction false} StartStopsAt(s: string, i: nat, b: nat)
    requires i <= b < |s| && SpacesIn(s, i, b) && !IsSpace(s[b])
    ensures TrimStart(s, i) == b
    decreases b - i
  {
    if i < b {
      StartStopsAt(s, i + 1, b);
    }
  }

  lemma {:induction false} EndStopsAt(s: string, lo: nat, e: nat, j: nat)
    requires lo < e <= j <= |s| && SpacesIn(s, e, j) && !IsSpace(s[e - 1])
    ensures TrimEnd(s, lo, j) == e
    decreases j - e
  {
    if e < j {
      EndStopsAt(s, lo, e, j - 1);
    }
  }

  /** Lower-casing leaves whitespace where it was, so it commutes with trimming. */
  lemma LowerTrimCommute(s: string)
    ensures Trim(Lower(s)) == Lower(Trim(s))
  {
    var low := Lower(s);
    StartLower(s, 0);
    var b := TrimStart(s, 0);
    EndLower(s, b, |s|);
    var e := TrimEnd(s, b, |s|);
    assert Trim(low) == low[b..e];
    LowerSlice(s, b, e);
  }

  lemma {:induction false} StartLower(s: string, i: nat)
    requires i <= |s|
    ensures TrimStart(Lower(s), i) == TrimStart(s, i)
    decreases |s| - i
  {
    if i < |s| {
      LowerCharSpace(s[i]);
      if IsSpace(s[i]) {
        StartLower(s, i + 1);
      }
    }
  }

  lemma {:induction false} EndLower(s: string, lo: nat, j: nat)
    requires lo <= j <= |s|
    ensures TrimEnd(Lower(s), lo, j) == TrimEnd(s, lo, j)
    decreases j - lo
  {
    if lo < j {
      LowerCharSpace(s[j - 1]);
      if IsSpace(s[j - 1]) {
        EndLower(s, lo, j - 1);
      }
    }
  }

  lemma LowerSlice(s: string, i: nat, j: nat)
    requires i <= j <= |s|
    ensures Lower(s)[i..j] == Lower(s[i..j])
  {
  }
}
