/**
  The string operations the Python code relies on: stripping, splitting into words and
  lines, and searching for a marker.
*/
module Text {
  import opened Options
  import Sequences

  // The characters `str.isspace` accepts, which `strip` and `split` go by.
  predicate IsSpace(c: char) {
    || '\t' <= c <= '\r' || '\U{1C}' <= c <= ' ' || c == '\U{85}' || c == '\U{A0}' || c == '\U{1680}'
    || '\U{2000}' <= c <= '\U{200A}' || c == '\U{2028}' || c == '\U{2029}' || c == '\U{202F}'
    || c == '\U{205F}' || c == '\U{3000}'
  }

  // The characters `splitlines` breaks at: all of them spaces.
  predicate IsLineBreak(c: char)
    ensures IsLineBreak(c) ==> IsSpace(c)
  {
    || '\n' <= c <= '\r' || '\U{1C}' <= c <= '\U{1E}' || c == '\U{85}' || c == '\U{2028}' || c == '\U{2029}'
  }

  // The ASCII ones.
  lemma AsciiSpaces(c: char)
    requires c < '\U{80}'
    ensures IsSpace(c) <==> c in "\t\n\U{0B}\U{0C}\r\U{1C}\U{1D}\U{1E}\U{1F} "
  {
    var spaces := "\t\n\U{0B}\U{0C}\r\U{1C}\U{1D}\U{1E}\U{1F} ";
    assert spaces[0] == '\t' && spaces[1] == '\n' && spaces[2] == '\U{0B}' && spaces[3] == '\U{0C}' && spaces[4] == '\r';
    assert spaces[5] == '\U{1C}' && spaces[6] == '\U{1D}' && spaces[7] == '\U{1E}' && spaces[8] == '\U{1F}' && spaces[9] == ' ';
  }

  function TrimLeft(s: string): (t: string)
    ensures |t| <= |s| && (t == [] || !IsSpace(t[0]))
  {
    if s != [] && IsSpace(s[0]) then TrimLeft(s[1..]) else s
  }

  function TrimRight(s: string): (t: string)
    ensures t <= s && (t == [] || !IsSpace(t[|t| - 1]))
  {
    if s != [] && IsSpace(s[|s| - 1]) then TrimRight(s[..|s| - 1]) else s
  }

  function Strip(s: string): string {
    TrimRight(TrimLeft(s))
  }

  ghost predicate AllSpace(s: string) {
    forall i :: 0 <= i < |s| ==> IsSpace(s[i])
  }

  // Nothing to strip.
  ghost predicate Stripped(s: string) {
    s == [] || (!IsSpace(s[0]) && !IsSpace(s[|s| - 1]))
  }

  lemma StripStripped(s: string)
    requires Stripped(s)
    ensures Strip(s) == s
  {
  }

  lemma {:induction false} TrimLeftSpace(a: string, s: string)
    requires AllSpace(a)
    ensures TrimLeft(a + s) == TrimLeft(s)
  {
    if a == [] {
      assert a + s == s;
    } else {
      TrimLeftSpace(a[1..], s);
      assert (a + s)[1..] == a[1..] + s;
    }
  }

  lemma {:induction false} TrimRightSpace(s: string, b: string)
    requires AllSpace(b)
    ensures TrimRight(s + b) == TrimRight(s)
  {
    if b == [] {
      assert s + b == s;
    } else {
      TrimRightSpace(s, b[..|b| - 1]);
      assert (s + b)[..|s + b| - 1] == s + b[..|b| - 1];
    }
  }

  // Surrounding whitespace is stripped off again.
  lemma StripPadded(a: string, s: string, b: string)
    requires AllSpace(a) && AllSpace(b) && Stripped(s)
    ensures Strip(a + s + b) == s
  {
    assert a + s + b == a + (s + b);
    TrimLeftSpace(a, s + b);
    if s == [] {
      assert s + b == b + [];
      TrimLeftSpace(b, []);
    } else {
      assert TrimLeft(s + b) == s + b;
      TrimRightSpace(s, b);
    }
  }

  lemma StripIsStripped(s: string)
    ensures Stripped(Strip(s))
  {
  }

  lemma {:induction false} TrimLeftDrops(s: string) returns (a: string)
    ensures AllSpace(a) && s == a + TrimLeft(s)
  {
    if s != [] && IsSpace(s[0]) {
      a := TrimLeftDrops(s[1..]);
      a := [s[0]] + a;
    } else {
      a := [];
    }
  }

  lemma {:induction false} TrimRightDrops(s: string) returns (b: string)
    ensures AllSpace(b) && s == TrimRight(s) + b
  {
    if s != [] && IsSpace(s[|s| - 1]) {
      b := TrimRightDrops(s[..|s| - 1]);
      b := b + [s[|s| - 1]];
    } else {
      b := [];
    }
  }

  // Only spaces are stripped off, and all of them at either end: the one text `s` is
  // with spaces around it.
  lemma StripIs(s: string, t: string)
    ensures Strip(s) == t <==> Stripped(t) && exists a, b :: AllSpace(a) && AllSpace(b) && s == a + t + b
  {
    var a := TrimLeftDrops(s);
    var b := TrimRightDrops(TrimLeft(s));
    StripIsStripped(s);
    assert s == a + Strip(s) + b;
    if Stripped(t) {
      forall x, y | AllSpace(x) && AllSpace(y) && s == x + t + y
        ensures Strip(s) == t
      {
        StripPadded(x, t, y);
      }
    }
  }

  lemma {:induction false} TrimRightKeeps(s: string, i: nat)
    requires i < |s| && !IsSpace(s[i])
    ensures |TrimRight(s)| > i
  {
    if IsSpace(s[|s| - 1]) {
      TrimRightKeeps(s[..|s| - 1], i);
    }
  }

  lemma {:induction false} TrimLeftMembers(s: string, c: char)
    ensures c in TrimLeft(s) ==> c in s
  {
    if s != [] && IsSpace(s[0]) {
      TrimLeftMembers(s[1..], c);
    }
  }

  lemma StripMembers(s: string, c: char)
    ensures c in Strip(s) ==> c in s
  {
    TrimLeftMembers(s, c);
  }

  // ---- Words -----------------------------------------------------------------

  function WordLength(s: string): (n: nat)
    ensures n <= |s| && (n < |s| ==> IsSpace(s[n]))
    ensures forall i :: 0 <= i < n ==> !IsSpace(s[i])
  {
    if s != [] && !IsSpace(s[0]) then 1 + WordLength(s[1..]) else 0
  }

  // str.split(): the maximal runs of characters that are not spaces.
  function Words(s: string): seq<string>
    decreases |s|
  {
    var t := TrimLeft(s);
    if t == [] then [] else [t[..WordLength(t)]] + Words(t[WordLength(t)..])
  }

  function JoinWith(parts: seq<string>, separator: string): string {
    if parts == [] then []
    else if |parts| == 1 then parts[0]
    else parts[0] + separator + JoinWith(parts[1..], separator)
  }

  // A word: not empty, and without a space in it.
  ghost predicate IsWord(s: string) {
    s != [] && forall i :: 0 <= i < |s| ==> !IsSpace(s[i])
  }

  lemma {:induction false} WordsAreWords(s: string)
    ensures forall w :: w in Words(s) ==> IsWord(w)
    decreases |s|
  {
    var t := TrimLeft(s);
    if t == [] {
    } else {
      WordsAreWords(t[WordLength(t)..]);
    }
  }

  // Words joined by single spaces split into themselves again.
  lemma {:induction false} WordsOfJoined(ws: seq<string>)
    requires forall w :: w in ws ==> IsWord(w)
    ensures Words(JoinWith(ws, " ")) == ws
  {
    if ws == [] {
    } else {
      var w, rest := ws[0], JoinWith(ws[1..], " ");
      var tail := if |ws| == 1 then [] else " " + rest;
      assert JoinWith(ws, " ") == w + tail;
      WordsOfJoined(ws[1..]);
      FirstWord(w, tail);
      if |ws| > 1 {
        SpaceThenWords(rest);
      } else {
        assert ws == [w];
      }
    }
  }

  lemma {:induction false} WordLengthOf(w: string, tail: string)
    requires (forall i :: 0 <= i < |w| ==> !IsSpace(w[i])) && (tail == [] || IsSpace(tail[0]))
    ensures WordLength(w + tail) == |w|
  {
    if w == [] {
      assert w + tail == tail;
    } else {
      assert (w + tail)[1..] == w[1..] + tail;
      WordLengthOf(w[1..], tail);
    }
  }

  lemma FirstWord(w: string, tail: string)
    requires IsWord(w) && (tail == [] || IsSpace(tail[0]))
    ensures Words(w + tail) == [w] + Words(tail)
  {
    var s := w + tail;
    WordLengthOf(w, tail);
    assert TrimLeft(s) == s;
    assert s[..|w|] == w && s[|w|..] == tail;
  }

  lemma SpaceThenWords(s: string)
    ensures Words(" " + s) == Words(s)
  {
  }

  lemma WordsOfSpace(s: string)
    requires AllSpace(s)
    ensures Words(s) == []
  {
    TrimLeftSpace(s, []);
    assert s + [] == s;
  }

  lemma WordAlone(w: string)
    requires IsWord(w)
    ensures Words(w) == [w]
  {
    FirstWord(w, []);
    assert w + [] == w;
  }

  lemma WordsSkip(a: string, s: string)
    requires AllSpace(a)
    ensures Words(a + s) == Words(s)
  {
    TrimLeftSpace(a, s);
  }

  lemma FirstWordOf(s: string) returns (a: string, w: string, rest: string)
    requires Words(s) != []
    ensures AllSpace(a) && IsWord(w) && (rest == [] || IsSpace(rest[0]))
    ensures s == a + (w + rest) && Words(s) == [w] + Words(rest) && |rest| < |s|
  {
    a := TrimLeftDrops(s);
    var t := TrimLeft(s);
    var n := WordLength(t);
    w, rest := t[..n], t[n..];
    WordOfTrimmed(t, n);
  }

  lemma WordOfTrimmed(t: string, n: nat)
    requires t != [] && !IsSpace(t[0]) && n == WordLength(t)
    ensures n > 0 && IsWord(t[..n]) && (t[n..] == [] || IsSpace(t[n..][0])) && t == t[..n] + t[n..]
  {
  }

  // A space ends a word wherever it stands.
  lemma {:induction false} WordsSplitAt(s: string, c: char, t: string)
    requires IsSpace(c)
    ensures Words(s + [c] + t) == Words(s) + Words(t)
    decreases |s|
  {
    if Words(s) == [] {
      var a := TrimLeftDrops(s);
      assert TrimLeft(s) == [];
      WordsSkip(s + [c], t);
    } else {
      var a, w, rest := FirstWordOf(s);
      WordsSplitAt(rest, c, t);
      var tail := rest + [c] + t;
      Sequences.ConcatInside(a, w, rest, [c], t);
      WordsSkip(a, w + tail);
      FirstWord(w, tail);
      Sequences.ConcatAssociative([w], Words(rest), Words(t));
    }
  }

  lemma {:induction false} WordsBeforeSpace(s: string, b: string)
    requires AllSpace(b)
    ensures Words(s + b) == Words(s)
  {
    if b == [] {
      assert s + b == s;
    } else {
      assert s + b == s + [b[0]] + b[1..];
      WordsSplitAt(s, b[0], b[1..]);
      WordsOfSpace(b[1..]);
    }
  }

  // Stripping first makes no difference to the words.
  lemma WordsOfStrip(s: string)
    ensures Words(Strip(s)) == Words(s)
  {
    var a := TrimLeftDrops(s);
    var b := TrimRightDrops(TrimLeft(s));
    WordsSkip(a, TrimLeft(s));
    WordsBeforeSpace(Strip(s), b);
  }

  // `_single_line`: one line, its words separated by single spaces.
  function SingleLine(s: string): string {
    JoinWith(Words(s), " ")
  }

  ghost predicate OneLine(s: string) {
    Stripped(s) && forall i :: 0 <= i < |s| && IsSpace(s[i]) ==> s[i] == ' '
  }

  lemma {:induction false} JoinedWordsOneLine(ws: seq<string>)
    requires forall w :: w in ws ==> IsWord(w)
    ensures OneLine(JoinWith(ws, " ")) && (ws != [] ==> JoinWith(ws, " ") != [])
  {
    assert ws != [] ==> IsWord(ws[0]);
    if |ws| > 1 {
      assert IsWord(ws[1]);
      JoinedWordsOneLine(ws[1..]);
    }
  }

  lemma SingleLineIsOneLine(s: string)
    ensures OneLine(SingleLine(s))
  {
    WordsAreWords(s);
    JoinedWordsOneLine(Words(s));
  }

  // A single-lined text has the words it had, in their order.
  lemma SingleLineKeepsWords(s: string)
    ensures Words(SingleLine(s)) == Words(s)
  {
    WordsAreWords(s);
    WordsOfJoined(Words(s));
  }

  // One line whose words stand one space apart.
  ghost predicate SingleSpaced(s: string) {
    OneLine(s) && forall i :: 0 < i < |s| ==> !IsSpace(s[i - 1]) || !IsSpace(s[i])
  }

  lemma {:induction false} JoinedWordsSpaced(ws: seq<string>)
    requires forall w :: w in ws ==> IsWord(w)
    ensures SingleSpaced(JoinWith(ws, " ")) && (ws != [] ==> JoinWith(ws, " ") != [])
  {
    JoinedWordsOneLine(ws);
    if |ws| <= 1 {
      assert ws != [] ==> IsWord(ws[0]);
    } else {
      JoinedWordsSpaced(ws[1..]);
      JoinedWordsOneLine(ws[1..]);
      assert IsWord(ws[0]);
    }
  }

  // A text already so stays as it is, and no other does.
  lemma SingleLineIff(s: string)
    ensures SingleLine(s) == s <==> SingleSpaced(s)
  {
    WordsAreWords(s);
    JoinedWordsSpaced(Words(s));
    if SingleSpaced(s) {
      JoinWordsBack(s);
    }
  }

  lemma {:induction false} JoinWordsBack(s: string)
    requires SingleSpaced(s)
    ensures JoinWith(Words(s), " ") == s
    decreases |s|
  {
    if s == [] {
    } else {
      var n := WordLength(s);
      assert TrimLeft(s) == s && n > 0;
      if n == |s| {
        assert s[..n] == s && s[n..] == [];
      } else {
        var rest := s[n + 1..];
        assert s[n..] == " " + rest && s == s[..n] + " " + rest;
        assert rest != [];
        JoinWordsBack(rest);
        SpaceThenWords(rest);
        assert Words(s) == [s[..n]] + Words(rest);
        assert Words(rest) != [];
      }
    }
  }

  // ---- Lines -----------------------------------------------------------------

  ghost predicate NoBreaks(s: string) {
    forall i :: 0 <= i < |s| ==> !IsLineBreak(s[i])
  }

  function LineLength(s: string): (n: nat)
    ensures n <= |s|
  {
    if s != [] && !IsLineBreak(s[0]) then 1 + LineLength(s[1..]) else 0
  }

  // str.splitlines()
  function SplitLines(s: string): seq<string>
    decreases |s|
  {
    var n := LineLength(s);
    if s == [] then []
    else if n == |s| then [s]
    else
      var next := if s[n] == '\r' && n + 1 < |s| && s[n + 1] == '\n' then n + 2 else n + 1;
      [s[..n]] + SplitLines(s[next..])
  }

  // Each line followed by a newline.
  function Ended(lines: seq<string>): string {
    if lines == [] then [] else lines[0] + "\n" + Ended(lines[1..])
  }

  lemma {:induction false} LineLengthOf(line: string, rest: string)
    requires NoBreaks(line) && rest != [] && IsLineBreak(rest[0])
    ensures LineLength(line + rest) == |line|
  {
    if line == [] {
      assert line + rest == rest;
    } else {
      assert (line + rest)[1..] == line[1..] + rest;
      LineLengthOf(line[1..], rest);
    }
  }

  lemma {:induction false} SplitEnded(lines: seq<string>)
    requires forall l :: l in lines ==> NoBreaks(l)
    ensures SplitLines(Ended(lines)) == lines
  {
    if lines == [] {
    } else {
      var line, rest := lines[0], Ended(lines[1..]);
      SplitEnded(lines[1..]);
      FirstLine(line, rest);
      assert lines == [line] + lines[1..];
    }
  }

  lemma FirstLine(line: string, rest: string)
    requires NoBreaks(line)
    ensures SplitLines(line + "\n" + rest) == [line] + SplitLines(rest)
  {
    var s := line + "\n" + rest;
    assert s == line + ("\n" + rest);
    LineLengthOf(line, "\n" + rest);
    assert s[..|line|] == line && s[|line| + 1..] == rest;
    if rest == [] {
      assert s[|line| + 1..] == [];
    }
  }

  lemma {:induction false} EndedConcat(a: seq<string>, b: seq<string>)
    ensures Ended(a + b) == Ended(a) + Ended(b)
  {
    if a == [] {
      assert a + b == b;
    } else {
      EndedConcat(a[1..], b);
      assert (a + b)[1..] == a[1..] + b;
    }
  }

  // "\n".join over two lists, the second not empty.
  lemma {:induction false} JoinLines(a: seq<string>, b: seq<string>)
    requires b != []
    ensures JoinWith(a + b, "\n") == Ended(a) + JoinWith(b, "\n")
  {
    if a == [] {
      assert a + b == b;
    } else {
      JoinLines(a[1..], b);
      assert (a + b)[1..] == a[1..] + b && (a + b)[0] == a[0] && |a + b| > 1;
      var rest := JoinWith(a[1..] + b, "\n");
      assert JoinWith(a + b, "\n") == a[0] + "\n" + rest;
      Sequences.ConcatAssociative(a[0] + "\n", Ended(a[1..]), JoinWith(b, "\n"));
    }
  }

  // Reading a file as text turns every kind of newline into "\n".
  function Newlines(s: string): string {
    if s == [] then []
    else if s[0] == '\r' then
      "\n" + Newlines(if |s| > 1 && s[1] == '\n' then s[2..] else s[1..])
    else
      [s[0]] + Newlines(s[1..])
  }

  // One newline, of whichever kind, at the start of a longer text.
  lemma NewlinesFirst(a: string, b: string, k: nat)
    requires a != [] && (|a| == 1 ==> a[0] != '\r')
    requires k == if a[0] == '\r' && a[1] == '\n' then 2 else 1
    ensures (a + b)[k..] == a[k..] + b
    ensures Newlines(a) == [if a[0] == '\r' then '\n' else a[0]] + Newlines(a[k..])
    ensures Newlines(a + b) == [if a[0] == '\r' then '\n' else a[0]] + Newlines(a[k..] + b)
  {
    assert (a + b)[0] == a[0] && (|a| > 1 ==> (a + b)[1] == a[1]);
    assert (a + b)[k..] == a[k..] + b;
  }

  lemma {:induction false} NewlinesConcat(a: string, b: string)
    requires a == [] || a[|a| - 1] != '\r'
    ensures Newlines(a + b) == Newlines(a) + Newlines(b)
    decreases |a|
  {
    if a == [] {
      assert a + b == b;
    } else {
      var k := if a[0] == '\r' && a[1] == '\n' then 2 else 1;
      NewlinesFirst(a, b, k);
      NewlinesConcat(a[k..], b);
      Sequences.ConcatAssociative([if a[0] == '\r' then '\n' else a[0]], Newlines(a[k..]), Newlines(b));
    }
  }

  lemma {:induction false} NewlinesIdentity(s: string)
    requires '\r' !in s
    ensures Newlines(s) == s
  {
    if s == [] {
    } else {
      assert s[0] in s;
      NewlinesIdentity(s[1..]);
    }
  }

  lemma {:induction false} NewlinesHasNoReturn(s: string)
    ensures '\r' !in Newlines(s)
    decreases |s|
  {
    if s == [] {
    } else {
      NewlinesHasNoReturn(s[1..]);
      if |s| > 1 {
        NewlinesHasNoReturn(s[2..]);
      }
    }
  }

  // Each kind of newline, wherever it stands.
  lemma NewlinesPair(a: string, b: string)
    requires a == [] || a[|a| - 1] != '\r'
    ensures Newlines(a + "\r\n" + b) == Newlines(a) + "\n" + Newlines(b)
  {
    assert a + "\r\n" + b == a + ("\r\n" + b);
    NewlinesConcat(a, "\r\n" + b);
    assert ("\r\n" + b)[2..] == b && ("\r\n" + b)[1] == '\n';
    Sequences.ConcatAssociative(Newlines(a), "\n", Newlines(b));
  }

  lemma NewlinesReturn(a: string, b: string)
    requires (a == [] || a[|a| - 1] != '\r') && (b == [] || b[0] != '\n')
    ensures Newlines(a + "\r" + b) == Newlines(a) + "\n" + Newlines(b)
  {
    assert a + "\r" + b == a + ("\r" + b);
    NewlinesConcat(a, "\r" + b);
    assert ("\r" + b)[1..] == b;
    Sequences.ConcatAssociative(Newlines(a), "\n", Newlines(b));
  }

  lemma NewlinesStripped(s: string)
    requires s != [] && Stripped(s)
    ensures Newlines(s) != [] && Stripped(Newlines(s))
  {
    NewlinesLast(s);
  }

  lemma {:induction false} NewlinesLast(s: string)
    requires s != [] && !IsSpace(s[|s| - 1])
    ensures Newlines(s) != [] && Newlines(s)[|Newlines(s)| - 1] == s[|s| - 1]
    decreases |s|
  {
    if |s| > 1 {
      var k := if s[0] == '\r' && s[1] == '\n' then 2 else 1;
      NewlinesLast(s[k..]);
    }
  }

  // ---- Searching -------------------------------------------------------------

  predicate OccursAt(s: string, p: string, i: nat) {
    i + |p| <= |s| && s[i..i + |p|] == p
  }

  // The first occurrence of `p` at or after `i`.
  function FindFrom(s: string, p: string, i: nat): (k: Option<nat>)
    ensures k.Some? ==> i <= k.value && OccursAt(s, p, k.value) && forall j: nat :: i <= j < k.value ==> !OccursAt(s, p, j)
    ensures k.None? ==> forall j: nat :: i <= j ==> !OccursAt(s, p, j)
    decreases |s| - i
  {
    if i + |p| > |s| then None
    else if OccursAt(s, p, i) then Some(i)
    else FindFrom(s, p, i + 1)
  }

  // The last occurrence of `p` at or before `i`.
  function FindBefore(s: string, p: string, i: nat): (k: Option<nat>)
    ensures k.Some? ==> k.value <= i && OccursAt(s, p, k.value) && forall j: nat :: k.value < j <= i ==> !OccursAt(s, p, j)
    ensures k.None? ==> forall j: nat :: j <= i ==> !OccursAt(s, p, j)
  {
    if OccursAt(s, p, i) then Some(i) else if i == 0 then None else FindBefore(s, p, i - 1)
  }
}
