/** The Python string built-ins the email agent relies on, over `string = seq<char>`:
    `str.strip()` (whitespace trimming of the model's reply), `str.lower()` (used before
    keyword sniffing) and the substring test `word in text`. Only ASCII characters get
    special treatment; everything else is an ordinary character. */
module Text {

  datatype Option<+T> = None | Some(value: T)

  /** Python's `str.isspace` on the ASCII range: tab, line feed, vertical tab, form feed,
      carriage return, the four information separators and the blank. */
  predicate IsSpace(c: char) {
    c == ' ' || ('\t' <= c <= '\r') || ('\U{1C}' <= c <= '\U{1F}')
  }

  predicate AllSpace(s: string) {
    forall i :: 0 <= i < |s| ==> IsSpace(s[i])
  }

  /** Neither end of `s` is whitespace. */
  predicate Trimmed(s: string) {
    s == [] || (!IsSpace(s[0]) && !IsSpace(s[|s| - 1]))
  }

  /** `r` sits at position `i` of `s`, with nothing but whitespace before and after it. */
  ghost predicate CoreAt(r: string, s: string, i: int) {
    0 <= i && i + |r| <= |s| && r == s[i..i + |r|] && AllSpace(s[..i]) && AllSpace(s[i + |r|..])
  }

  /** `r` is `s` with a whitespace prefix and a whitespace suffix cut off, and no other change. */
  ghost predicate CoreOf(r: string, s: string) {
    exists i :: CoreAt(r, s, i)
  }

  /** Removes leading whitespace. */
  function TrimStart(s: string): (r: string)
    ensures |r| <= |s| && r == s[|s| - |r|..]
    ensures AllSpace(s[..|s| - |r|])
    ensures r == [] || !IsSpace(r[0])
    decreases |s|
  {
    if s != [] && IsSpace(s[0]) then
      var r := TrimStart(s[1..]);
      assert s[..|s| - |r|] == [s[0]] + s[1..][..|s| - 1 - |r|];
      r
    else s
  }

  /** Removes trailing whitespace. */
  function TrimEnd(s: string): (r: string)
    ensures |r| <= |s| && r == s[..|r|]
    ensures AllSpace(s[|r|..])
    ensures r == [] || !IsSpace(r[|r| - 1])
    decreases |s|
  {
    if s != [] && IsSpace(s[|s| - 1]) then
      var r := TrimEnd(s[..|s| - 1]);
      assert s[|r|..] == s[..|s| - 1][|r|..] + [s[|s| - 1]];
      r
    else s
  }

  /** Python's `str.strip()` with no argument. */
  function Strip(s: string): (r: string)
    ensures Trimmed(r)
    ensures CoreOf(r, s)
  {
    var t := TrimStart(s);
    var r := TrimEnd(t);
    CoreOfCut(s, t, r);
    assert r == [] || r[0] == t[0];
    r
  }

  /** Cutting whitespace off the front of `s`, giving `t`, and then off the back of `t`,
      giving `r`, leaves `r` as a core of `s`. */
  lemma CoreOfCut(s: string, t: string, r: string)
    requires |t| <= |s| && t == s[|s| - |t|..] && AllSpace(s[..|s| - |t|])
    requires |r| <= |t| && r == t[..|r|] && AllSpace(t[|r|..])
    ensures CoreAt(r, s, |s| - |t|)
  {
    var i := |s| - |t|;
    assert r == s[i..i + |r|];
    assert s[i + |r|..] == t[|r|..];
  }

  /** Two cores of the same string with no whitespace at their ends start and end at the
      same places. */
  lemma CoreAtUnique(s: string, t: string, i: int, u: string, j: int)
    requires Trimmed(t) && CoreAt(t, s, i)
    requires Trimmed(u) && CoreAt(u, s, j)
    ensures t == u
  {
    if t == [] {
      assert AllSpace(s) by {
        assert s == s[..i] + s[i..];
      }
    } else if u != [] {
      assert !IsSpace(s[i]) && !IsSpace(s[j]);
      assert !IsSpace(s[i + |t| - 1]) && !IsSpace(s[j + |u| - 1]);
      assert i == j;
      assert i + |t| == j + |u|;
    }
  }

  /** A slice with no whitespace at its ends, surrounded only by whitespace, is unique:
      it is what `Strip` returns. */
  lemma StripIsTheCore(s: string, t: string)
    requires Trimmed(t) && CoreOf(t, s)
    ensures Strip(s) == t
  {
    var r := Strip(s);
    var i :| CoreAt(t, s, i);
    var j :| CoreAt(r, s, j);
    CoreAtUnique(s, t, i, r, j);
  }

  /** Stripping a string that has no whitespace at either end changes nothing. */
  lemma StripTrimmed(t: string)
    requires Trimmed(t)
    ensures Strip(t) == t
  {
    assert CoreAt(t, t, 0);
    StripIsTheCore(t, t);
  }

  /** Stripping twice is stripping once. */
  lemma StripIdempotent(s: string)
    ensures Strip(Strip(s)) == Strip(s)
  {
    StripTrimmed(Strip(s));
  }

  /** Python's `str.lower()` on one character: ASCII capitals become small letters. */
  function LowerChar(c: char): char {
    if 'A' <= c <= 'Z' then (c as int + 32) as char else c
  }

  /** Python's `str.lower()`: capitals become their small letters, nothing else changes. */
  function Lower(s: string): (r: string)
    ensures |r| == |s|
    ensures forall i :: 0 <= i < |s| && 'A' <= s[i] <= 'Z' ==> r[i] as int == s[i] as int + 32
    ensures forall i :: 0 <= i < |s| && !('A' <= s[i] <= 'Z') ==> r[i] == s[i]
    ensures forall i :: 0 <= i < |r| ==> !('A' <= r[i] <= 'Z')
  {
    seq(|s|, i requires 0 <= i < |s| => LowerChar(s[i]))
  }

  ghost predicate OccursAt(s: string, w: string, i: int) {
    0 <= i && i + |w| <= |s| && s[i..i + |w|] == w
  }

  /** When `w` does not start `s`, it occurs in `s` exactly when it occurs in the tail. */
  lemma OccursInTail(s: string, w: string)
    requires s != [] && !OccursAt(s, w, 0)
    ensures (exists i :: OccursAt(s, w, i)) <==> (exists i :: OccursAt(s[1..], w, i))
  {
    if i :| OccursAt(s[1..], w, i) {
      assert s[i + 1..i + 1 + |w|] == s[1..][i..i + |w|];
      assert OccursAt(s, w, i + 1);
    }
    if i :| OccursAt(s, w, i) {
      assert s[1..][i - 1..i - 1 + |w|] == s[i..i + |w|];
      assert OccursAt(s[1..], w, i - 1);
    }
  }

  /** Python's substring test `w in s`: true exactly when `w` occurs at some position of
      `s`. The empty string is in every string. */
  predicate Contains(s: string, w: string)
    ensures Contains(s, w) <==> exists i :: OccursAt(s, w, i)
    decreases |s|
  {
    if |s| < |w| then false
    else if s[..|w|] == w then
      assert OccursAt(s, w, 0);
      true
    else
      OccursInTail(s, w);
      Contains(s[1..], w)
  }

  /** A word found in a text is still found once both are lower-cased. */
  lemma ContainsLower(s: string, w: string)
    requires Contains(s, w)
    ensures Contains(Lower(s), Lower(w))
  {
    var i :| OccursAt(s, w, i);
    assert Lower(s)[i..i + |w|] == Lower(w);
    assert OccursAt(Lower(s), Lower(w), i);
  }
}
