/** The few pieces of Python's `str` behaviour the pipeline relies on: whitespace as
    `str.isspace()` sees it, `strip()`, `split()` with and without a separator,
    `" ".join(...)`, `startswith`, `lower()` and prefix slicing `s[:n]`. */
module Text {

  /** `c.isspace()` in Python 3: the characters `str.split()` and `str.strip()` with
      no argument treat as whitespace. */
  predicate IsSpace(c: char) {
    || c == ' '
    || ('\t' <= c <= '\r')
    || ('\U{1C}' <= c <= '\U{1F}')
    || c == '\U{85}' || c == '\U{A0}' || c == '\U{1680}'
    || ('\U{2000}' <= c <= '\U{200A}')
    || c == '\U{2028}' || c == '\U{2029}' || c == '\U{202F}' || c == '\U{205F}' || c == '\U{3000}'
  }

  predicate NoSpace(s: string) {
    forall i :: 0 <= i < |s| ==> !IsSpace(s[i])
  }

  predicate AllSpace(s: string) {
    forall i :: 0 <= i < |s| ==> IsSpace(s[i])
  }

  /** `s.startswith(prefix)`: a plain prefix test. */
  predicate StartsWith(s: string, prefix: string) {
    prefix <= s
  }

  /** How many whitespace characters `s` starts with. */
  function LeadingSpace(s: string): (k: nat)
    ensures k <= |s|
    ensures forall i :: 0 <= i < k ==> IsSpace(s[i])
    ensures k < |s| ==> !IsSpace(s[k])
  {
    if s != [] && IsSpace(s[0]) then 1 + LeadingSpace(s[1..]) else 0
  }

  /** Where the whitespace that `s` ends with begins. */
  function TrailingSpace(s: string): (k: nat)
    ensures k <= |s|
    ensures forall i :: k <= i < |s| ==> IsSpace(s[i])
    ensures 0 < k ==> !IsSpace(s[k - 1])
  {
    if s != [] && IsSpace(s[|s| - 1]) then TrailingSpace(s[..|s| - 1]) else |s|
  }

  /** `s.lstrip()` */
  function TrimLeft(s: string): string {
    s[LeadingSpace(s)..]
  }

  /** `s.strip()`: what lies between the leading and the trailing whitespace. */
  function Strip(s: string): string {
    var t := TrimLeft(s);
    t[..TrailingSpace(t)]
  }

  /** The stripped text is empty exactly when the text is all whitespace, and
      otherwise neither starts nor ends with whitespace. */
  lemma StripEnds(s: string)
    ensures Strip(s) != [] ==> !IsSpace(Strip(s)[0]) && !IsSpace(Strip(s)[|Strip(s)| - 1])
    ensures Strip(s) == [] <==> AllSpace(s)
  {
    var t := TrimLeft(s);
    var r := Strip(s);
    assert r != [] ==> r[0] == t[0] && r[|r| - 1] == t[|r| - 1];
    assert AllSpace(s) ==> t == [];
    assert r == [] ==> forall i :: 0 <= i < |s| ==> IsSpace(s[i]);
  }

  /** Text with no whitespace at either end is its own strip. */
  lemma StripTrimmed(s: string)
    requires s != [] ==> !IsSpace(s[0]) && !IsSpace(s[|s| - 1])
    ensures Strip(s) == s
  {
    assert TrimLeft(s) == s;
  }

  /** Length of the leading run of non-whitespace characters of `t`. */
  function WordLength(t: string): (n: nat)
    ensures n <= |t| && (forall i :: 0 <= i < n ==> !IsSpace(t[i])) && (n < |t| ==> IsSpace(t[n]))
  {
    if t == [] || IsSpace(t[0]) then 0 else 1 + WordLength(t[1..])
  }

  /** The text after the leading whitespace starts with a visible character. */
  lemma TrimLeftStart(s: string)
    ensures TrimLeft(s) != [] ==> !IsSpace(TrimLeft(s)[0])
  {
    if TrimLeft(s) != [] {
      assert TrimLeft(s)[0] == s[LeadingSpace(s)];
    }
  }

  /** Text that starts with a visible character starts with a non-empty word. */
  lemma FirstWord(t: string)
    requires t != [] && !IsSpace(t[0])
    ensures 0 < WordLength(t) && NoSpace(t[..WordLength(t)])
  {
    var w := t[..WordLength(t)];
    forall i | 0 <= i < |w| ensures !IsSpace(w[i]) {
      assert w[i] == t[i];
    }
  }

  /** `s.split()` with no separator: the maximal runs of non-whitespace, in order. */
  function Words(s: string): (ws: seq<string>)
    ensures forall i :: 0 <= i < |ws| ==> ws[i] != [] && NoSpace(ws[i])
    decreases |s|
  {
    var t := TrimLeft(s);
    if t == [] then []
    else
      TrimLeftStart(s);
      FirstWord(t);
      var n := WordLength(t);
      var rest := Words(t[n..]);
      AllWordsCons(t[..n], rest);
      [t[..n]] + rest
  }

  lemma AllWordsCons(w: string, rest: seq<string>)
    requires w != [] && NoSpace(w)
    requires forall i :: 0 <= i < |rest| ==> rest[i] != [] && NoSpace(rest[i])
    ensures forall i :: 0 <= i < |[w] + rest| ==> ([w] + rest)[i] != [] && NoSpace(([w] + rest)[i])
  {
    forall i | 0 <= i < |[w] + rest| ensures ([w] + rest)[i] != [] && NoSpace(([w] + rest)[i]) {
      if 0 < i {
        assert ([w] + rest)[i] == rest[i - 1];
      }
    }
  }

  /** `sep.join(ws)` */
  function JoinWith(sep: string, ws: seq<string>): string {
    if |ws| == 0 then ""
    else if |ws| == 1 then ws[0]
    else ws[0] + sep + JoinWith(sep, ws[1..])
  }

  /** `" ".join(text.split())`: every run of whitespace becomes one space, and the
      whitespace at both ends disappears. */
  function Collapse(text: string): string {
    JoinWith(" ", Words(text))
  }

  /** Every whitespace character is a plain space, none is the first character, and
      none is followed by another one (a trailing space is allowed). */
  predicate SingleSpaced(s: string) {
    forall i :: 0 <= i < |s| && IsSpace(s[i]) ==>
      s[i] == ' ' && 0 < i && (i + 1 < |s| ==> !IsSpace(s[i + 1]))
  }

  /** Single-spaced and not ending in a space either. */
  predicate Collapsed(s: string) {
    SingleSpaced(s) && (s != [] ==> !IsSpace(s[|s| - 1]))
  }

  /** The characters of `s` that are not whitespace, in order. */
  function Visible(s: string): string {
    if s == [] then [] else (if IsSpace(s[0]) then [] else [s[0]]) + Visible(s[1..])
  }

  function Concat(ws: seq<string>): string {
    if ws == [] then [] else ws[0] + Concat(ws[1..])
  }

  lemma {:induction false} VisibleConcat(a: string, b: string)
    ensures Visible(a + b) == Visible(a) + Visible(b)
    decreases |a|
  {
    if a == [] {
      assert a + b == b;
    } else {
      assert (a + b)[0] == a[0];
      assert (a + b)[1..] == a[1..] + b;
      VisibleConcat(a[1..], b);
    }
  }

  lemma {:induction false} VisibleNoSpace(w: string)
    requires NoSpace(w)
    ensures Visible(w) == w
    decreases |w|
  {
    if w != [] {
      VisibleNoSpace(w[1..]);
    }
  }

  lemma {:induction false} VisibleAllSpace(w: string)
    requires AllSpace(w)
    ensures Visible(w) == []
    decreases |w|
  {
    if w != [] {
      VisibleAllSpace(w[1..]);
    }
  }

  /** Removing the leading whitespace removes no visible character. */
  lemma VisibleTrimLeft(s: string)
    ensures Visible(TrimLeft(s)) == Visible(s)
  {
    var k := LeadingSpace(s);
    var head := s[..k];
    assert s == head + TrimLeft(s);
    assert AllSpace(head) by {
      forall i | 0 <= i < |head| ensures IsSpace(head[i]) {
        assert head[i] == s[i];
      }
    }
    VisibleAllSpace(head);
    VisibleConcat(head, TrimLeft(s));
  }

  /** Removing the trailing whitespace removes no visible character. */
  lemma VisibleTrimRight(t: string)
    ensures Visible(t[..TrailingSpace(t)]) == Visible(t)
  {
    var m := TrailingSpace(t);
    var tail := t[m..];
    assert t == t[..m] + tail;
    assert AllSpace(tail) by {
      forall i | 0 <= i < |tail| ensures IsSpace(tail[i]) {
        assert tail[i] == t[m + i];
      }
    }
    VisibleAllSpace(tail);
    VisibleConcat(t[..m], tail);
  }

  /** Removing whitespace from the ends removes no visible character. */
  lemma VisibleStrip(s: string)
    ensures Visible(Strip(s)) == Visible(s)
  {
    VisibleTrimLeft(s);
    VisibleTrimRight(TrimLeft(s));
  }

  /** Joining space-free words with single spaces gives collapsed text that starts
      with the first word. */
  lemma {:induction false} JoinCollapsed(ws: seq<string>)
    requires forall i :: 0 <= i < |ws| ==> ws[i] != [] && NoSpace(ws[i])
    ensures Collapsed(JoinWith(" ", ws))
    ensures |ws| > 0 ==> JoinWith(" ", ws) != [] && !IsSpace(JoinWith(" ", ws)[0])
  {
    if |ws| > 1 {
      var w, rest := ws[0], JoinWith(" ", ws[1..]);
      JoinCollapsed(ws[1..]);
      var j := JoinWith(" ", ws);
      assert j == w + " " + rest;
      forall i | 0 <= i < |j| && IsSpace(j[i])
        ensures j[i] == ' ' && 0 < i && (i + 1 < |j| ==> !IsSpace(j[i + 1]))
      {
        if i == |w| {
          assert j[i + 1] == rest[0];
        } else if i > |w| {
          assert j[i] == rest[i - |w| - 1];
          if i + 1 < |j| {
            assert j[i + 1] == rest[i - |w|];
          }
        }
      }
      assert j[|j| - 1] == rest[|rest| - 1];
    }
  }

  /** Visible content of space-joined space-free words is the words run together. */
  lemma {:induction false} JoinVisible(ws: seq<string>)
    requires forall i :: 0 <= i < |ws| ==> NoSpace(ws[i])
    ensures Visible(JoinWith(" ", ws)) == Concat(ws)
  {
    if |ws| == 1 {
      VisibleNoSpace(ws[0]);
      assert Concat(ws) == ws[0] + Concat([]);
    } else if |ws| > 1 {
      JoinVisible(ws[1..]);
      VisibleConcat(ws[0] + " ", JoinWith(" ", ws[1..]));
      VisibleConcat(ws[0], " ");
      VisibleNoSpace(ws[0]);
      assert Visible(" ") == [];
    }
  }

  /** `split()` keeps every non-whitespace character, in order. */
  lemma {:induction false} WordsVisible(s: string)
    ensures Concat(Words(s)) == Visible(s)
    decreases |s|
  {
    var t := TrimLeft(s);
    var k := LeadingSpace(s);
    assert s == s[..k] + t;
    VisibleConcat(s[..k], t);
    VisibleAllSpace(s[..k]);
    if t != [] {
      var n := WordLength(t);
      assert t == t[..n] + t[n..];
      VisibleConcat(t[..n], t[n..]);
      VisibleNoSpace(t[..n]);
      WordsVisible(t[n..]);
      assert Words(s)[1..] == Words(t[n..]);
    }
  }

  /** Collapsing whitespace loses no visible character. */
  lemma CollapseKeepsText(text: string)
    ensures Visible(Collapse(text)) == Visible(text)
  {
    JoinVisible(Words(text));
    WordsVisible(text);
  }

  /** Collapsing whitespace leaves single spaces between words and none at the ends. */
  lemma CollapseShape(text: string)
    ensures Collapsed(Collapse(text))
  {
    JoinCollapsed(Words(text));
  }

  lemma {:induction false} WordLengthOf(w: string, rest: string)
    requires NoSpace(w)
    requires rest != [] ==> IsSpace(rest[0])
    ensures WordLength(w + rest) == |w|
    decreases |w|
  {
    if w != [] {
      assert (w + rest)[1..] == w[1..] + rest;
      WordLengthOf(w[1..], rest);
    }
  }

  /** A single word splits into itself. */
  lemma WordsOfWord(w: string)
    requires w != [] && NoSpace(w)
    ensures Words(w) == [w]
  {
    assert TrimLeft(w) == w;
    WordLengthOf(w, "");
    assert w + "" == w;
    assert w[|w|..] == "";
  }

  /** A word, a space and text that starts with a visible character split into the
      word followed by the words of that text. */
  lemma WordsCons(w: string, rest: string)
    requires w != [] && NoSpace(w)
    requires rest != [] && !IsSpace(rest[0])
    ensures Words(w + " " + rest) == [w] + Words(rest)
  {
    var j := w + " " + rest;
    assert j == w + (" " + rest);
    assert TrimLeft(j) == j;
    WordLengthOf(w, " " + rest);
    assert j[..|w|] == w;
    assert j[|w|..] == " " + rest;
    assert TrimLeft(" " + rest) == TrimLeft(rest) by {
      assert LeadingSpace(" " + rest) == 1 + LeadingSpace(rest) by {
        assert (" " + rest)[1..] == rest;
      }
    }
  }

  /** `split()` undoes a `" ".join` of non-empty space-free words. */
  lemma {:induction false} WordsOfJoin(ws: seq<string>)
    requires forall i :: 0 <= i < |ws| ==> ws[i] != [] && NoSpace(ws[i])
    ensures Words(JoinWith(" ", ws)) == ws
  {
    if |ws| == 1 {
      WordsOfWord(ws[0]);
    } else if |ws| > 1 {
      WordsOfJoin(ws[1..]);
      JoinCollapsed(ws[1..]);
      WordsCons(ws[0], JoinWith(" ", ws[1..]));
    }
  }

  /** Collapsing keeps the word boundaries, so collapsing twice is collapsing once. */
  lemma CollapseIdempotent(text: string)
    ensures Words(Collapse(text)) == Words(text)
    ensures Collapse(Collapse(text)) == Collapse(text)
  {
    WordsOfJoin(Words(text));
  }

  /** Python's `s[:n]`: the first `n` characters, or for negative `n` all but the
      last `-n`. */
  function SlicePrefix(s: string, n: int): (r: string)
    ensures r <= s
    ensures 0 <= n ==> |r| == if n < |s| then n else |s|
    ensures n < 0 ==> |r| == if |s| + n < 0 then 0 else |s| + n
  {
    if 0 <= n then s[..if n < |s| then n else |s|]
    else s[..if |s| + n < 0 then 0 else |s| + n]
  }

  /** A prefix keeps single spacing. */
  lemma PrefixSingleSpaced(s: string, p: string)
    requires SingleSpaced(s) && p <= s
    ensures SingleSpaced(p)
  {
    forall i | 0 <= i < |p| && IsSpace(p[i])
      ensures p[i] == ' ' && 0 < i && (i + 1 < |p| ==> !IsSpace(p[i + 1]))
    {
      assert p[i] == s[i];
      if i + 1 < |p| {
        assert p[i + 1] == s[i + 1];
      }
    }
  }

  /** The index of the first `c` in `s`. */
  function IndexOf(s: string, c: char): (k: nat)
    requires c in s
    ensures k < |s| && s[k] == c && c !in s[..k]
  {
    if s[0] == c then 0 else 1 + IndexOf(s[1..], c)
  }

  /** `s.split(sep)` for a one-character separator: always at least one piece, none
      holding the separator. */
  function SplitOn(s: string, sep: char): (parts: seq<string>)
    ensures |parts| >= 1
    ensures forall i :: 0 <= i < |parts| ==> sep !in parts[i]
    decreases |s|
  {
    if sep !in s then [s]
    else
      var k := IndexOf(s, sep);
      [s[..k]] + SplitOn(s[k + 1..], sep)
  }

  /** Splitting at the first separator: the part before it, then the splits of the
      rest. */
  lemma SplitAtFirst(p: string, sep: char, rest: string)
    requires sep !in p
    ensures SplitOn(p + [sep] + rest, sep) == [p] + SplitOn(rest, sep)
  {
    var j := p + [sep] + rest;
    assert j[|p|] == sep;
    assert j[..|p|] == p;
    assert IndexOf(j, sep) == |p|;
    assert j[|p| + 1..] == rest;
  }

  /** `s.split(sep)` undoes `sep.join(parts)` when no part holds the separator. */
  lemma {:induction false} SplitOfJoin(parts: seq<string>, sep: char)
    requires |parts| >= 1
    requires forall i :: 0 <= i < |parts| ==> sep !in parts[i]
    ensures SplitOn(JoinWith([sep], parts), sep) == parts
  {
    if |parts| > 1 {
      var rest := JoinWith([sep], parts[1..]);
      assert JoinWith([sep], parts) == parts[0] + [sep] + rest;
      SplitAtFirst(parts[0], sep, rest);
      SplitOfJoin(parts[1..], sep);
      assert parts == [parts[0]] + parts[1..];
    }
  }

  /** `c.lower()` for ASCII letters; every other character is left as it is. */
  function LowerChar(c: char): char {
    if 'A' <= c <= 'Z' then (c as int + 32) as char else c
  }

  /** `s.lower()` (ASCII letters only). */
  function Lower(s: string): (r: string)
    ensures |r| == |s|
    ensures forall i :: 0 <= i < |s| ==> r[i] == LowerChar(s[i])
  {
    seq(|s|, i requires 0 <= i < |s| => LowerChar(s[i]))
  }

  /** No upper-case ASCII letter. */
  predicate IsLower(s: string) {
    forall i :: 0 <= i < |s| ==> !('A' <= s[i] <= 'Z')
  }
}
