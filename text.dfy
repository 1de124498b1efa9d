/** String operations the script relies on: joining command words with spaces,
    Python's `str.replace`, `str.split(' ')` and string accumulation. */
module Text {

  predicate StartsWith(s: string, prefix: string) {
    |prefix| <= |s| && s[..|prefix|] == prefix
  }

  predicate EndsWith(s: string, suffix: string) {
    |suffix| <= |s| && s[|s| - |suffix|..] == suffix
  }

  /** A command line built as `base`, then `" " + token` for every token in order. */
  function Render(base: string, tokens: seq<string>): (line: string) {
    if tokens == [] then base
    else Render(base, tokens[..|tokens| - 1]) + " " + tokens[|tokens| - 1]
  }

  /** Appending one more token is one more `+= ' ' + token` step. */
  lemma RenderAppend(base: string, tokens: seq<string>, t: string)
    ensures Render(base, tokens + [t]) == Render(base, tokens) + " " + t
  {
    assert (tokens + [t])[..|tokens|] == tokens;
  }

  /** Joining a word onto a literal tail that is known in merged form. */
  lemma RegroupStep(pre: string, tail: string, word: string, merged: string)
    requires tail + " " + word == merged
    ensures pre + tail + " " + word == pre + merged
  {
    assert pre + tail + " " + word == pre + (tail + " " + word);
  }

  /** Every rendering of a prefix of the tokens is a prefix of the rendering. */
  lemma {:induction false} RenderPrefix(base: string, tokens: seq<string>, k: nat)
    requires k <= |tokens|
    ensures StartsWith(Render(base, tokens), Render(base, tokens[..k]))
    decreases |tokens|
  {
    if k < |tokens| {
      var init := tokens[..|tokens| - 1];
      assert tokens[..k] == init[..k];
      RenderPrefix(base, init, k);
      var r := Render(base, init);
      assert Render(base, tokens) == r + " " + tokens[|tokens| - 1];
      assert Render(base, tokens)[..|r|] == r;
    } else {
      assert tokens[..k] == tokens;
    }
  }

  /** The rendering ends with a space and the last token. */
  lemma RenderLast(base: string, tokens: seq<string>)
    requires tokens != []
    ensures EndsWith(Render(base, tokens), " " + tokens[|tokens| - 1])
  {
    var r := Render(base, tokens[..|tokens| - 1]);
    var t := " " + tokens[|tokens| - 1];
    assert Render(base, tokens) == r + t;
    assert (r + t)[|r + t| - |t|..] == t;
  }

  /** Python's `s.replace(pat, rep)`: occurrences of `pat` are found left to right,
      never overlapping, and each is replaced by `rep`. */
  function ReplaceAll(s: string, pat: string, rep: string): (r: string)
    requires pat != ""
    ensures rep == pat ==> r == s
    ensures |s| < |pat| ==> r == s
    decreases |s|
  {
    if |s| < |pat| then s
    else if s[..|pat|] == pat then rep + ReplaceAll(s[|pat|..], pat, rep)
    else [s[0]] + ReplaceAll(s[1..], pat, rep)
  }

  /** Replacement introduces no character that is neither in the input nor in the replacement. */
  lemma {:induction false} ReplaceAllChars(s: string, pat: string, rep: string, c: char)
    requires pat != ""
    ensures c in ReplaceAll(s, pat, rep) ==> c in s || c in rep
    decreases |s|
  {
    if |s| < |pat| {
    } else if s[..|pat|] == pat {
      ReplaceAllChars(s[|pat|..], pat, rep, c);
      assert c in s[|pat|..] ==> c in s;
    } else {
      ReplaceAllChars(s[1..], pat, rep, c);
      assert c in s[1..] ==> c in s;
    }
  }

  /** Replacing a single character by text without it removes every occurrence of it. */
  lemma {:induction false} ReplaceCharRemoves(s: string, c: char, rep: string)
    requires c !in rep
    ensures c !in ReplaceAll(s, [c], rep)
    decreases |s|
  {
    if |s| < 1 {
    } else if s[..1] == [c] {
      ReplaceCharRemoves(s[1..], c, rep);
    } else {
      assert s[0] != c by { assert s[..1] == [s[0]]; }
      ReplaceCharRemoves(s[1..], c, rep);
    }
  }

  /** Python's `s.split(sep)` with an explicit one-character separator: the pieces between
      separators, empty pieces included; there is always at least one piece. */
  function Split(s: string, sep: char): (pieces: seq<string>)
    ensures |pieces| >= 1
    ensures forall k :: 0 <= k < |pieces| ==> sep !in pieces[k]
    decreases |s|
  {
    if sep !in s then [s]
    else
      var i := IndexOf(s, sep);
      [s[..i]] + Split(s[i + 1..], sep)
  }

  /** First position of `c` in `s`. */
  function IndexOf(s: string, c: char): (i: nat)
    requires c in s
    ensures i < |s| && s[i] == c && c !in s[..i]
  {
    if s[0] == c then 0 else 1 + IndexOf(s[1..], c)
  }

  /** Python's `sep.join(pieces)`. */
  function Join(pieces: seq<string>, sep: char): (s: string)
    decreases |pieces|
  {
    if pieces == [] then ""
    else if |pieces| == 1 then pieces[0]
    else pieces[0] + [sep] + Join(pieces[1..], sep)
  }

  /** Splitting and joining again gives back the original string. */
  lemma {:induction false} SplitJoin(s: string, sep: char)
    ensures Join(Split(s, sep), sep) == s
    decreases |s|
  {
    if sep in s {
      var i := IndexOf(s, sep);
      var rest := Split(s[i + 1..], sep);
      SplitJoin(s[i + 1..], sep);
      assert Split(s, sep) == [s[..i]] + rest;
      assert ([s[..i]] + rest)[1..] == rest;
      assert s == s[..i] + [sep] + s[i + 1..];
    }
  }

  /** The last piece of a split. */
  function LastPiece(s: string, sep: char): (piece: string) {
    var pieces := Split(s, sep);
    pieces[|pieces| - 1]
  }

  /** The last piece of a split is what follows the last separator: a suffix of the
      string, preceded by the separator unless it is the whole string. */
  lemma {:induction false} LastPieceIsTail(s: string, sep: char)
    ensures sep !in LastPiece(s, sep)
    ensures EndsWith(s, LastPiece(s, sep))
    ensures |LastPiece(s, sep)| < |s| ==> s[|s| - |LastPiece(s, sep)| - 1] == sep
    decreases |s|
  {
    if sep in s {
      var i := IndexOf(s, sep);
      var tail := s[i + 1..];
      LastPieceIsTail(tail, sep);
      LastPieceAfterSeparator(s, sep);
      TailOfSuffix(s, i + 1, |LastPiece(tail, sep)|);
    }
  }

  /** Past the first separator, the last piece is the tail's last piece. */
  lemma LastPieceAfterSeparator(s: string, sep: char)
    requires sep in s
    ensures LastPiece(s, sep) == LastPiece(s[IndexOf(s, sep) + 1..], sep)
  {
    var i := IndexOf(s, sep);
    var rest := Split(s[i + 1..], sep);
    var pieces := Split(s, sep);
    assert pieces == [s[..i]] + rest;
    assert |pieces| == |rest| + 1;
    assert pieces[|pieces| - 1] == rest[|rest| - 1];
  }

  /** Indexing from the end of `s[j..]` is indexing from the end of `s`. */
  lemma TailOfSuffix(s: string, j: nat, n: nat)
    requires j <= |s| && n <= |s| - j
    ensures s[|s| - n..] == s[j..][|s| - j - n..]
    ensures n < |s| - j ==> s[|s| - n - 1] == s[j..][|s| - j - n - 1]
    ensures n == |s| - j && j > 0 ==> s[|s| - n - 1] == s[j - 1]
  {
  }

  /** The string accumulated by `acc += item` over the items, starting from "". */
  function Concat(items: seq<string>): (r: string)
    ensures items != [] ==> EndsWith(r, items[|items| - 1])
    ensures forall k :: 0 <= k < |items| ==> |items[k]| <= |r|
  {
    if items == [] then "" else Concat(items[..|items| - 1]) + items[|items| - 1]
  }
}
