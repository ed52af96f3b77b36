/**
 * The JavaScript string operations the commands rely on, over `string`
 * (a sequence of UTF-16 code units is abstracted to a sequence of `char`):
 * `startsWith`, `includes`, `replace` with a string pattern (first occurrence
 * only), `replace` with a global regular expression made of a plain literal,
 * `split` with a string separator, and the blank test `!line.trim()`.
 */
module Text {
  import opened Options

  /** `s.startsWith(p)`. */
  predicate StartsWith(s: string, p: string) {
    |p| <= |s| && s[..|p|] == p
  }

  /** `p` occurs in `s` at index `i`. */
  predicate OccursAt(s: string, p: string, i: nat) {
    i + |p| <= |s| && s[i..i + |p|] == p
  }

  /** `s.includes(p)`. */
  predicate Contains(s: string, p: string) {
    exists i: nat | i <= |s| :: OccursAt(s, p, i)
  }

  /** `i` is the leftmost occurrence of `p` in `s`. */
  predicate FirstAt(s: string, p: string, i: nat) {
    OccursAt(s, p, i) && forall j: nat :: j < i ==> !OccursAt(s, p, j)
  }

  /** The leftmost occurrence of `p` in `s` at or after index `k`. */
  function IndexFrom(s: string, p: string, k: nat): (r: Option<nat>)
    decreases |s| - k
    ensures r.Some? ==> k <= r.value && OccursAt(s, p, r.value)
    ensures forall j: nat :: k <= j && (r.Some? ==> j < r.value) ==> !OccursAt(s, p, j)
  {
    if |s| < k + |p| then None
    else if OccursAt(s, p, k) then Some(k)
    else IndexFrom(s, p, k + 1)
  }

  /** `s.indexOf(p)`, with `None` for -1. */
  function IndexOf(s: string, p: string): (r: Option<nat>)
    ensures r.None? <==> !Contains(s, p)
    ensures r.Some? ==> FirstAt(s, p, r.value)
  {
    IndexFrom(s, p, 0)
  }

  /** An occurrence inside a prefix of `s` is an occurrence in `s`. */
  lemma OccursInPrefix(s: string, p: string, i: nat, n: nat)
    requires n <= |s| && OccursAt(s[..n], p, i)
    ensures OccursAt(s, p, i)
  {
    assert s[..n][i..i + |p|] == s[i..i + |p|];
  }

  /** An occurrence of `p` at `i` fixes each character it covers. */
  lemma CharAt(s: string, p: string, i: nat, k: nat)
    requires OccursAt(s, p, i) && k < |p|
    ensures s[i + k] == p[k]
  {
    assert s[i..i + |p|][k] == s[i + k];
  }

  /**
   * `s.replace(p, q)` with a string pattern: only the leftmost occurrence is
   * replaced; without one the text is returned as it is.
   * The replacement is taken literally: JavaScript would expand `$&`, `$1`
   * or `$$` in it, so this models only replacements without `$`, which every
   * replacement of the commands is.
   */
  function ReplaceFirst(s: string, p: string, q: string): (r: string)
    ensures !Contains(s, p) ==> r == s
    ensures forall i: nat :: FirstAt(s, p, i) ==> r == s[..i] + q + s[i + |p|..]
  {
    match IndexOf(s, p)
    case None => s
    case Some(i) => s[..i] + q + s[i + |p|..]
  }

  /** When `s` starts with `p`, replacing the first `p` rewrites only that prefix. */
  lemma ReplaceFirstOfPrefix(s: string, p: string, q: string)
    requires StartsWith(s, p)
    ensures ReplaceFirst(s, p, q) == q + s[|p|..]
  {
    assert OccursAt(s, p, 0);
    assert FirstAt(s, p, 0);
    assert s[..0] + q == q;
  }

  /**
   * Replacing the first `p` by `q` puts `q` where that `p` was and keeps the
   * text on both sides of it.
   */
  lemma ReplaceFirstPlaces(s: string, p: string, q: string, i: nat)
    requires FirstAt(s, p, i)
    ensures OccursAt(ReplaceFirst(s, p, q), q, i)
    ensures ReplaceFirst(s, p, q)[..i] == s[..i]
    ensures ReplaceFirst(s, p, q)[i + |q|..] == s[i + |p|..]
    ensures |ReplaceFirst(s, p, q)| == |s| - |p| + |q|
  {
    var r := ReplaceFirst(s, p, q);
    assert r == s[..i] + q + s[i + |p|..];
    assert r[i..i + |q|] == q;
  }

  /** An occurrence in `a` is one in `a + b` at the same index. */
  lemma OccursLeft(a: string, b: string, t: string, j: nat)
    requires OccursAt(a, t, j)
    ensures OccursAt(a + b, t, j)
  {
    assert (a + b)[j..j + |t|] == a[j..j + |t|];
  }

  /** An occurrence in `b` is one in `a + b`, shifted by `|a|`. */
  lemma OccursRight(a: string, b: string, t: string, j: nat)
    requires OccursAt(b, t, j)
    ensures OccursAt(a + b, t, |a| + j)
  {
    assert (a + b)[|a| + j..|a| + j + |t|] == b[j..j + |t|];
  }

  /**
   * Cutting `n` characters at `i` and putting `q` there keeps every occurrence
   * of `t` that does not overlap the cut: in place before it, shifted by the
   * change in length after it.
   */
  lemma SpliceKeeps(s: string, i: nat, n: nat, q: string, t: string, j: nat)
    requires i + n <= |s| && OccursAt(s, t, j)
    requires j + |t| <= i || i + n <= j
    ensures j + |t| <= i ==> OccursAt(s[..i] + q + s[i + n..], t, j)
    ensures i + n <= j ==> OccursAt(s[..i] + q + s[i + n..], t, j - n + |q|)
  {
    var before, after := s[..i], s[i + n..];
    if j + |t| <= i {
      assert before[j..j + |t|] == s[j..j + |t|];
      OccursLeft(before, q, t, j);
      OccursLeft(before + q, after, t, j);
    } else {
      var d := j - i - n;
      assert after[d..d + |t|] == s[j..j + |t|];
      OccursRight(before + q, after, t, d);
    }
  }

  /** An occurrence of `t` that does not overlap the first `p` survives the replacement. */
  lemma ReplaceFirstKeeps(s: string, p: string, q: string, i: nat, t: string, j: nat)
    requires FirstAt(s, p, i) && OccursAt(s, t, j)
    requires j + |t| <= i || i + |p| <= j
    ensures j + |t| <= i ==> OccursAt(ReplaceFirst(s, p, q), t, j)
    ensures i + |p| <= j ==> OccursAt(ReplaceFirst(s, p, q), t, j - |p| + |q|)
  {
    assert ReplaceFirst(s, p, q) == s[..i] + q + s[i + |p|..];
    SpliceKeeps(s, i, |p|, q, t, j);
  }

  /** Replacing the first `p` by `p` itself leaves the text unchanged. */
  lemma ReplaceFirstSelf(s: string, p: string)
    ensures ReplaceFirst(s, p, p) == s
  {
    match IndexOf(s, p)
    case None =>
    case Some(i) =>
      assert s == s[..i] + s[i..i + |p|] + s[i + |p|..];
  }

  /**
   * `s.split(sep)` with a non-empty string separator: the pieces between the
   * successive leftmost occurrences, always at least one.
   */
  function Split(s: string, sep: string): (pieces: seq<string>)
    requires sep != []
    decreases |s|
    ensures |pieces| >= 1
  {
    match IndexOf(s, sep)
    case None => [s]
    case Some(i) => [s[..i]] + Split(s[i + |sep|..], sep)
  }

  /** `pieces.join(sep)`. */
  function Join(pieces: seq<string>, sep: string): string {
    if |pieces| == 0 then ""
    else if |pieces| == 1 then pieces[0]
    else pieces[0] + sep + Join(pieces[1..], sep)
  }

  /** The text around an occurrence, put back together around it, is the text. */
  lemma Reassembled(s: string, p: string, i: nat)
    requires OccursAt(s, p, i)
    ensures s[..i] + p + s[i + |p|..] == s
  {
    assert s == s[..i] + s[i..i + |p|] + s[i + |p|..];
  }

  /** Joining a piece in front of at least one more puts the separator between them. */
  lemma JoinCons(piece: string, pieces: seq<string>, sep: string)
    requires |pieces| >= 1
    ensures Join([piece] + pieces, sep) == piece + sep + Join(pieces, sep)
  {
    assert ([piece] + pieces)[1..] == pieces;
  }

  /** Splitting and joining with the same separator gives the text back. */
  lemma {:induction false} JoinSplit(s: string, sep: string)
    requires sep != []
    ensures Join(Split(s, sep), sep) == s
    decreases |s|
  {
    match IndexOf(s, sep)
    case None =>
    case Some(i) =>
      var rest := s[i + |sep|..];
      var pieces := Split(s, sep);
      JoinSplit(rest, sep);
      assert pieces == [s[..i]] + Split(rest, sep);
      JoinCons(s[..i], Split(rest, sep), sep);
      Reassembled(s, sep, i);
  }

  /** No piece of a split contains the separator. */
  lemma {:induction false} SplitPiecesLackSeparator(s: string, sep: string)
    requires sep != []
    ensures forall piece :: piece in Split(s, sep) ==> !Contains(piece, sep)
    decreases |s|
  {
    match IndexOf(s, sep)
    case None =>
    case Some(i) =>
      SplitPiecesLackSeparator(s[i + |sep|..], sep);
      forall j: nat | OccursAt(s[..i], sep, j)
        ensures false
      {
        OccursInPrefix(s, sep, j, i);
      }
  }

  /**
   * `s.replace(/p/g, q)` for a regular expression that is a plain literal:
   * every occurrence, scanning left to right without overlap, is replaced.
   */
  function ReplaceAll(s: string, p: string, q: string): (r: string)
    requires p != []
    decreases |s|
    ensures !Contains(s, p) ==> r == s
  {
    match IndexOf(s, p)
    case None => s
    case Some(i) => s[..i] + q + ReplaceAll(s[i + |p|..], p, q)
  }

  /** A global replace is the same as splitting on the pattern and joining with the replacement. */
  lemma {:induction false} ReplaceAllIsSplitJoin(s: string, p: string, q: string)
    requires p != []
    ensures ReplaceAll(s, p, q) == Join(Split(s, p), q)
    decreases |s|
  {
    match IndexOf(s, p)
    case None =>
    case Some(i) =>
      var rest := s[i + |p|..];
      var pieces := Split(s, p);
      ReplaceAllIsSplitJoin(rest, p, q);
      assert pieces == [s[..i]] + Split(rest, p);
      assert pieces[1..] == Split(rest, p);
      assert Join(pieces, q) == s[..i] + q + Join(Split(rest, p), q);
  }

  /** A global replace of `p` by `p` itself leaves the text unchanged. */
  lemma ReplaceAllSelf(s: string, p: string)
    requires p != []
    ensures ReplaceAll(s, p, p) == s
  {
    ReplaceAllIsSplitJoin(s, p, p);
    JoinSplit(s, p);
  }

  /** The characters that `String.prototype.trim` removes (white space and line terminators). */
  predicate IsTrimmed(c: char) {
    c in {'\t', '\n', '\U{B}', '\U{C}', '\r', ' ', '\U{A0}', '\U{1680}', '\U{2028}',
          '\U{2029}', '\U{202F}', '\U{205F}', '\U{3000}', '\U{FEFF}'}
    || ('\U{2000}' <= c <= '\U{200A}')
  }

  /** `!s.trim()`: the text is empty once trimmed. */
  predicate Blank(s: string) {
    forall i :: 0 <= i < |s| ==> IsTrimmed(s[i])
  }
}
