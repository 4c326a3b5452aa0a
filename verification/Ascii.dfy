/** Byte strings as the Go gateway sees them, ASCII case folding, and substring occurrence. */
module Ascii {

  type byte = b: int | 0 <= b < 256

  type Bytes = seq<byte>

  /** Folds A-Z to a-z and leaves every other byte alone. */
  function ToLower(b: byte): byte {
    if 65 <= b <= 90 then b + 32 else b
  }

  function Lower(s: Bytes): (r: Bytes)
    ensures |r| == |s|
    ensures forall i :: 0 <= i < |s| ==> r[i] == ToLower(s[i])
  {
    seq(|s|, i requires 0 <= i < |s| => ToLower(s[i]))
  }

  ghost predicate IsSuffix(a: Bytes, t: Bytes) {
    |a| <= |t| && t[|t| - |a|..] == a
  }

  ghost predicate OccursAt(p: Bytes, t: Bytes, i: int) {
    0 <= i <= |t| - |p| && t[i..i + |p|] == p
  }

  /** The naive reading of "the text contains the pattern". */
  ghost predicate Occurs(p: Bytes, t: Bytes) {
    exists i :: OccursAt(p, t, i)
  }

  /** One byte, or the two cases of one ASCII letter. */
  predicate SameLetter(b: byte, c: byte) {
    b == c || (65 <= b <= 90 && c == b + 32) || (97 <= b <= 122 && c == b - 32)
  }

  ghost predicate MentionsAt(text: Bytes, keyword: Bytes, i: int) {
    0 <= i <= |text| - |keyword| && forall j :: 0 <= j < |keyword| ==> SameLetter(text[i + j], keyword[j])
  }

  /** Containment without regard to case, the question the keyword prefilter answers. */
  ghost predicate Mentions(text: Bytes, keyword: Bytes) {
    keyword != [] && exists i :: MentionsAt(text, keyword, i)
  }

  lemma SameLetterFolds(b: byte, c: byte)
    ensures SameLetter(b, c) <==> ToLower(b) == ToLower(c)
  {
  }

  lemma MentionsAtFolds(text: Bytes, keyword: Bytes, i: int)
    ensures MentionsAt(text, keyword, i) <==> OccursAt(Lower(keyword), Lower(text), i)
  {
    var k, t := Lower(keyword), Lower(text);
    if 0 <= i <= |text| - |keyword| {
      forall j | 0 <= j < |keyword| ensures SameLetter(text[i + j], keyword[j]) <==> t[i..i + |k|][j] == k[j] {
        SameLetterFolds(text[i + j], keyword[j]);
      }
      assert t[i..i + |k|] == k <==> forall j :: 0 <= j < |k| ==> t[i..i + |k|][j] == k[j];
    }
  }

  /** Folding both to lower case and searching bytewise answers it. */
  lemma MentionsFolds(text: Bytes, keyword: Bytes)
    ensures Mentions(text, keyword) <==> keyword != [] && Occurs(Lower(keyword), Lower(text))
  {
    if Mentions(text, keyword) {
      var i :| MentionsAt(text, keyword, i);
      MentionsAtFolds(text, keyword, i);
    }
    if keyword != [] && Occurs(Lower(keyword), Lower(text)) {
      var i :| OccursAt(Lower(keyword), Lower(text), i);
      MentionsAtFolds(text, keyword, i);
    }
  }

  /** A pattern occurs exactly when it is a suffix of some prefix of the text. */
  lemma OccursIsSuffixOfPrefix(p: Bytes, t: Bytes)
    ensures Occurs(p, t) <==> exists n :: 0 <= n <= |t| && IsSuffix(p, t[..n])
  {
    if Occurs(p, t) {
      var i :| OccursAt(p, t, i);
      assert t[..i + |p|][i..] == t[i..i + |p|];
      assert IsSuffix(p, t[..i + |p|]);
    }
    if exists n :: 0 <= n <= |t| && IsSuffix(p, t[..n]) {
      var n :| 0 <= n <= |t| && IsSuffix(p, t[..n]);
      assert t[n - |p|..n] == t[..n][n - |p|..];
      assert OccursAt(p, t, n - |p|);
    }
  }
}
