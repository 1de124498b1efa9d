/** The display form of a command: every `--password='<run>'` whose run is one or more
    characters of [A-Za-z0-9!#$_] becomes `--password='XXXXXXXXXXXXXXXXXXXXX'`
    (the `re.sub` the script applies before showing a command). The regular expression
    is modelled by hand as a left-to-right scan. */
module Redaction {
  import opened Text

  /** The literal head of the pattern: `--password='`. */
  const Prefix: string := "--password='"

  /** The fixed marker written in place of the password: 21 `X`. */
  const Mask: string := "XXXXXXXXXXXXXXXXXXXXX"

  /** The character class `[A-Za-z0-9!#$_]`. */
  predicate PasswordChar(c: char) {
    ('A' <= c <= 'Z') || ('a' <= c <= 'z') || ('0' <= c <= '9')
    || c == '!' || c == '#' || c == '$' || c == '_'
  }

  /** A password the pattern can match: a non-empty run of the class. */
  predicate MatchablePassword(p: string) {
    p != [] && forall k :: 0 <= k < |p| ==> PasswordChar(p[k])
  }

  /** The `--password='<p>'` word of a command. */
  function PasswordWord(p: string): (word: string) {
    Prefix + p + "'"
  }

  predicate NoQuote(s: string) {
    '\'' !in s
  }

  /** Length of the longest prefix of `t` made of class characters. */
  function RunLength(t: string): (n: nat)
    ensures n <= |t|
    ensures forall k :: 0 <= k < n ==> PasswordChar(t[k])
    ensures n < |t| ==> !PasswordChar(t[n])
  {
    if t == [] || !PasswordChar(t[0]) then 0 else 1 + RunLength(t[1..])
  }

  /** The pattern matches at the start of `t`. Since a quote is not a class character,
      the greedy run is the only run the closing quote can follow. */
  predicate MatchAt(t: string) {
    StartsWith(t, Prefix)
    && var n := RunLength(t[|Prefix|..]);
    n > 0 && |Prefix| + n < |t| && t[|Prefix| + n] == '\''
  }

  /** Number of characters the match at the start of `t` covers. */
  function MatchLength(t: string): (m: nat)
    requires MatchAt(t)
    ensures |Prefix| + 2 <= m <= |t|
  {
    |Prefix| + RunLength(t[|Prefix|..]) + 1
  }

  /** Python's `re.sub` of the pattern by `--password='<Mask>'`: scan left to right; at a
      match emit the marker and continue after it, otherwise copy one character. */
  function Redact(s: string): (r: string)
    ensures NoQuote(s) ==> r == s
    decreases |s|
  {
    if s == [] then []
    else if MatchAt(s) then PasswordWord(Mask) + Redact(s[MatchLength(s)..])
    else [s[0]] + Redact(s[1..])
  }

  /** The regular expression read literally: `t` begins with the prefix, a non-empty
      run of class characters and a closing quote, `m` characters in all. */
  predicate RegexMatch(t: string, m: nat) {
    |Prefix| + 2 <= m <= |t| && StartsWith(t, Prefix)
    && (forall k :: |Prefix| <= k < m - 1 ==> PasswordChar(t[k]))
    && t[m - 1] == '\''
  }

  /** The scan matches exactly where the regular expression does, and with the only
      length it can have. */
  lemma MatchAtIsRegexMatch(t: string, m: nat)
    ensures RegexMatch(t, m) ==> MatchAt(t) && m == MatchLength(t)
    ensures MatchAt(t) ==> RegexMatch(t, MatchLength(t))
  {
    if RegexMatch(t, m) {
      var u := t[|Prefix|..];
      var run := m - 1 - |Prefix|;
      forall k | 0 <= k < run ensures PasswordChar(u[k]) {
        assert u[k] == t[|Prefix| + k];
      }
      assert u[run] == '\'';
      RunLengthIs(u, run);
    }
  }

  /** A run of class characters ended by a non-class character (or by the end) has exactly
      that length. */
  lemma {:induction false} RunLengthIs(u: string, run: nat)
    requires run <= |u|
    requires forall k :: 0 <= k < run ==> PasswordChar(u[k])
    requires run < |u| ==> !PasswordChar(u[run])
    ensures RunLength(u) == run
    decreases run
  {
    if run > 0 {
      assert PasswordChar(u[0]);
      forall k | 0 <= k < run - 1 ensures PasswordChar(u[1..][k]) {
        assert u[1..][k] == u[k + 1];
      }
      RunLengthIs(u[1..], run - 1);
    }
  }

  /** The run of class characters in `a + b` stops inside `a` when `a` has a non-class character. */
  lemma {:induction false} RunLengthAppend(a: string, b: string)
    ensures RunLength(a + b) == if RunLength(a) < |a| then RunLength(a) else |a| + RunLength(b)
    decreases |a|
  {
    if a == [] {
      assert a + b == b;
    } else if PasswordChar(a[0]) {
      assert (a + b)[1..] == a[1..] + b;
      RunLengthAppend(a[1..], b);
    }
  }

  /** A match is not disturbed by what follows it. */
  lemma MatchExtends(t: string, u: string)
    ensures MatchAt(t) ==> MatchAt(t + u) && MatchLength(t + u) == MatchLength(t)
  {
    if |t| >= |Prefix| {
      assert (t + u)[|Prefix|..] == t[|Prefix|..] + u;
      RunLengthAppend(t[|Prefix|..], u);
      assert (t + u)[..|Prefix|] == t[..|Prefix|];
    }
  }

  /** A match that ends within `t` is a match of `t` alone. */
  lemma MatchWithin(t: string, u: string)
    requires MatchAt(t + u) && MatchLength(t + u) <= |t|
    ensures MatchAt(t) && MatchLength(t) == MatchLength(t + u)
  {
    var m := MatchLength(t + u);
    MatchAtIsRegexMatch(t + u, m);
    assert RegexMatch(t + u, m);
    assert (t + u)[..|Prefix|] == t[..|Prefix|];
    forall k | |Prefix| <= k < m - 1 ensures PasswordChar(t[k]) {
      assert (t + u)[k] == t[k];
    }
    assert (t + u)[m - 1] == t[m - 1];
    assert RegexMatch(t, m);
    MatchAtIsRegexMatch(t, m);
  }

  /** A match contains no space. */
  lemma MatchHasNoSpace(t: string)
    requires MatchAt(t)
    ensures forall k :: 0 <= k < MatchLength(t) ==> t[k] != ' '
  {
    forall k | 0 <= k < MatchLength(t) ensures t[k] != ' ' {
      if k < |Prefix| {
        assert t[k] == Prefix[k];
      } else if k < MatchLength(t) - 1 {
        assert t[k] == t[|Prefix|..][k - |Prefix|];
      }
    }
  }

  /** A space is a clean cut: no match reaches across it. */
  lemma {:induction false} RedactSpaceCut(a: string, b: string)
    ensures Redact(a + " " + b) == Redact(a) + " " + Redact(b)
    decreases |a|, 1
  {
    var s := a + " " + b;
    if a == [] {
      assert s == " " + b;
      assert s[0] != Prefix[0];
      assert s[1..] == b;
    } else if MatchAt(s) {
      CutAfterMatch(a, b);
    } else {
      CutAfterCopy(a, b);
    }
  }

  /** The cut, when a match starts the string: the match lies before the space. */
  lemma {:induction false} CutAfterMatch(a: string, b: string)
    requires a != [] && MatchAt(a + " " + b)
    ensures Redact(a + " " + b) == Redact(a) + " " + Redact(b)
    decreases |a|, 0
  {
    var s := a + " " + b;
    var m := MatchLength(s);
    MatchEndsBeforeSpace(a, b);
    MatchWithin(a, " " + b);
    RedactAtMatch(s);
    RedactAtMatch(a);
    SuffixPastCut(a, b, m);
    RedactSpaceCut(a[m..], b);
  }

  /** A match at the start of `a + " " + b` ends inside `a`. */
  lemma MatchEndsBeforeSpace(a: string, b: string)
    requires MatchAt(a + " " + b)
    ensures MatchLength(a + " " + b) <= |a|
    ensures a + " " + b == a + (" " + b)
  {
    var s := a + " " + b;
    assert s[|a|] == ' ';
    MatchHasNoSpace(s);
  }

  /** Redaction at a match: the marker, then the rest. */
  lemma RedactAtMatch(t: string)
    requires MatchAt(t)
    ensures Redact(t) == PasswordWord(Mask) + Redact(t[MatchLength(t)..])
  {
  }

  lemma SuffixPastCut(a: string, b: string, m: nat)
    requires m <= |a|
    ensures (a + " " + b)[m..] == a[m..] + " " + b
  {
  }

  /** The cut, when the string does not start with a match: one character is copied. */
  lemma {:induction false} CutAfterCopy(a: string, b: string)
    requires a != [] && !MatchAt(a + " " + b)
    ensures Redact(a + " " + b) == Redact(a) + " " + Redact(b)
    decreases |a|, 0
  {
    var s := a + " " + b;
    assert s == a + (" " + b);
    MatchExtends(a, " " + b);
    assert s[1..] == a[1..] + " " + b;
    RedactSpaceCut(a[1..], b);
  }

  /** Redaction of each word of a command. */
  function RedactEach(tokens: seq<string>): (r: seq<string>)
    ensures |r| == |tokens|
  {
    if tokens == [] then []
    else RedactEach(tokens[..|tokens| - 1]) + [Redact(tokens[|tokens| - 1])]
  }

  /** Redacting a rendered command redacts its words one by one: the display form keeps
      the command's shape word for word. */
  lemma {:induction false} RedactRender(base: string, tokens: seq<string>)
    ensures Redact(Render(base, tokens)) == Render(Redact(base), RedactEach(tokens))
    decreases |tokens|
  {
    if tokens != [] {
      var init := tokens[..|tokens| - 1];
      var last := tokens[|tokens| - 1];
      assert Render(base, tokens) == Render(base, init) + " " + last;
      RedactSpaceCut(Render(base, init), last);
      RedactRender(base, init);
      var shown := RedactEach(init);
      assert RedactEach(tokens) == shown + [Redact(last)];
      RenderAppend(Redact(base), shown, Redact(last));
    }
  }

  /** Words the display leaves alone are left alone in the command too. */
  lemma {:induction false} RedactEachUnchanged(tokens: seq<string>)
    requires forall k :: 0 <= k < |tokens| ==> Redact(tokens[k]) == tokens[k]
    ensures RedactEach(tokens) == tokens
    decreases |tokens|
  {
    if tokens != [] {
      var init := tokens[..|tokens| - 1];
      forall k | 0 <= k < |init| ensures Redact(init[k]) == init[k] {
        assert init[k] == tokens[k];
      }
      RedactEachUnchanged(init);
      assert tokens == init + [tokens[|tokens| - 1]];
    }
  }

  /** Redaction of words distributes over joining word lists. */
  lemma {:induction false} RedactEachAppend(a: seq<string>, b: seq<string>)
    ensures RedactEach(a + b) == RedactEach(a) + RedactEach(b)
    decreases |b|
  {
    if b == [] {
      assert a + b == a;
    } else {
      var init := b[..|b| - 1];
      assert (a + b)[..|a + b| - 1] == a + init;
      RedactEachAppend(a, init);
    }
  }

  /** A string with no quote between its twelfth and its third-last character has no
      match anywhere, and is shown unchanged. */
  lemma {:induction false} QuoteSafeUnchanged(t: string)
    requires forall j :: |Prefix| - 1 <= j < |t| - 2 ==> t[j] != '\''
    ensures Redact(t) == t
    decreases |t|
  {
    if t != [] {
      if |t| >= |Prefix| + 2 {
        assert t[..|Prefix|][|Prefix| - 1] != Prefix[|Prefix| - 1];
      }
      forall j | |Prefix| - 1 <= j < |t[1..]| - 2 ensures t[1..][j] != '\'' {
        assert t[1..][j] == t[j + 1];
      }
      QuoteSafeUnchanged(t[1..]);
      assert t == [t[0]] + t[1..];
    }
  }

  /** Redacting word by word changes at most one word when every other word is shown as is. */
  lemma {:induction false} RedactEachKeepsOthers(tokens: seq<string>, k: nat)
    requires k < |tokens|
    requires forall j :: 0 <= j < |tokens| && j != k ==> Redact(tokens[j]) == tokens[j]
    ensures RedactEach(tokens) == tokens[k := Redact(tokens[k])]
    decreases |tokens|
  {
    var init := tokens[..|tokens| - 1];
    var last := tokens[|tokens| - 1];
    assert tokens == init + [last];
    if k == |tokens| - 1 {
      forall j | 0 <= j < |init| ensures Redact(init[j]) == init[j] {
        assert init[j] == tokens[j];
      }
      RedactEachUnchanged(init);
      assert RedactEach(tokens) == init + [Redact(last)];
    } else {
      forall j | 0 <= j < |init| && j != k ensures Redact(init[j]) == init[j] {
        assert init[j] == tokens[j];
      }
      RedactEachKeepsOthers(init, k);
      assert RedactEach(tokens) == RedactEach(init) + [Redact(last)];
      assert tokens[k := Redact(tokens[k])] == init[k := Redact(init[k])] + [last];
    }
  }

  /** A value quoted after a short head (`--user='`, `--host='`) is shown unchanged
      when the value holds no quote. */
  lemma QuotedValueUnchanged(head: string, v: string)
    requires |head| < |Prefix| && NoQuote(v)
    ensures Redact(head + v + "'") == head + v + "'"
  {
    var t := head + v + "'";
    forall j | |Prefix| - 1 <= j < |t| - 2 ensures t[j] != '\'' {
      assert t[j] == v[j - |head|];
      assert v[j - |head|] in v;
    }
    QuoteSafeUnchanged(t);
  }

  /** A password the pattern can match is replaced by the marker. */
  lemma PasswordWordMasked(p: string)
    requires MatchablePassword(p)
    ensures Redact(PasswordWord(p)) == PasswordWord(Mask)
  {
    var t := PasswordWord(p);
    assert t[|Prefix|..] == p + "'";
    RunLengthAppend(p, "'");
    RunLengthIs(p, |p|);
    assert RunLength("'") == 0;
    assert t[..|Prefix|] == Prefix;
    assert MatchAt(t);
    assert t[MatchLength(t)..] == [];
  }

  /** A password without quotes that the pattern cannot match (empty, or holding a character
      outside the class) stays visible: the word is shown unchanged. */
  lemma PasswordWordVisible(p: string)
    requires NoQuote(p) && !MatchablePassword(p)
    ensures Redact(PasswordWord(p)) == PasswordWord(p)
  {
    var t := PasswordWord(p);
    assert t[|Prefix|..] == p + "'";
    RunLengthAppend(p, "'");
    assert RunLength("'") == 0;
    var n := RunLength(p);
    if p != [] {
      assert n < |p| by {
        var k :| 0 <= k < |p| && !PasswordChar(p[k]);
      }
      assert p[n] in p;
      assert t[|Prefix| + n] == p[n];
    }
    assert !MatchAt(t);
    var u := t[1..];
    forall j | |Prefix| - 1 <= j < |u| - 2 ensures u[j] != '\'' {
      assert u[j] == p[j + 1 - |Prefix|];
      assert p[j + 1 - |Prefix|] in p;
    }
    QuoteSafeUnchanged(u);
    assert t == [t[0]] + u;
  }

  /** The display form never changes a string in which the pattern matches nowhere. */
  lemma {:induction false} NoMatchUnchanged(s: string)
    requires forall i :: 0 <= i < |s| ==> !MatchAt(s[i..])
    ensures Redact(s) == s
    decreases |s|
  {
    if s != [] {
      assert !MatchAt(s[0..]) && s[0..] == s;
      forall i | 0 <= i < |s[1..]| ensures !MatchAt(s[1..][i..]) {
        assert s[1..][i..] == s[i + 1..];
      }
      NoMatchUnchanged(s[1..]);
      assert s == [s[0]] + s[1..];
    }
  }
}
