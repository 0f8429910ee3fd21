/** The command-line splitter of the Mac OS shell loop: two passes over one buffer, the second
    of which writes the words over the text it is still reading.
 */
module ArgcArgv {
  import opened Wrappers

  const NUL := '\0'

  predicate Blank(c: char) { c == '\t' || c == ' ' }

  predicate Newline(c: char) { c == '\n' || c == '\r' }

  function Escape(c: char): char {
    if c == 't' then '\t' else if c == 'n' then '\n' else if c == 'r' then '\r' else c
  }

  // ---------------------------------------------------------------- a pure tokenizer

  function SkipBlanks(t: seq<char>, i: nat): (j: nat)
    requires i <= |t|
    ensures i <= j <= |t| && (j < |t| ==> !Blank(t[j]))
    decreases |t| - i
  {
    if i < |t| && Blank(t[i]) then SkipBlanks(t, i + 1) else i
  }

  /** The text of a quoted stretch and the position behind its closing quote, if it has one. */
  function Quoted(t: seq<char>, i: nat, q: char): (r: (seq<char>, nat))
    requires i <= |t|
    ensures i <= r.1 <= |t| && |r.0| <= r.1 - i
    decreases |t| - i
  {
    if i == |t| then ([], i)
    else if t[i] == q then ([], i + 1)
    else
      var (out, j) := Quoted(t, i + 1, q);
      ([t[i]] + out, j)
  }

  /** How a word ends. */
  datatype Ending = AtBlank | AtNewline | AtEnd

  /** The rest of a word, the position behind it, and what ended it. */
  function Word(t: seq<char>, i: nat): (r: (seq<char>, nat, Ending))
    requires i <= |t|
    ensures i <= r.1 <= |t| && |r.0| <= r.1 - i - (if r.2.AtEnd? then 0 else 1)
    ensures r.2.AtEnd? ==> r.1 == |t|
    decreases |t| - i
  {
    if i == |t| then ([], i, AtEnd)
    else if t[i] == '"' || t[i] == '\'' then
      var (out, j) := Quoted(t, i + 1, t[i]);
      var (more, k, e) := Word(t, j);
      (out + more, k, e)
    else if t[i] == '\\' then
      if i + 1 == |t| then ([], i + 1, AtEnd)
      else
        var (more, k, e) := Word(t, i + 2);
        ([Escape(t[i + 1])] + more, k, e)
    else if Blank(t[i]) then ([], i + 1, AtBlank)
    else if Newline(t[i]) then ([], i + 1, AtNewline)
    else
      var (more, k, e) := Word(t, i + 1);
      ([t[i]] + more, k, e)
  }

  /** The words of one line and the position behind the line. */
  function Words(t: seq<char>, i: nat): (r: (seq<seq<char>>, nat))
    requires i <= |t|
    ensures i <= r.1 <= |t| && (i < |t| ==> i < r.1)
    decreases |t| - i
  {
    var j := SkipBlanks(t, i);
    if j == |t| then ([], j)
    else if Newline(t[j]) then ([], j + 1)
    else
      var (w, k, e) := Word(t, j);
      if !e.AtBlank? then ([w], k)
      else
        var (ws, end) := Words(t, k);
        ([w] + ws, end)
  }

  /** Tokens hold no terminator, so as C strings they end where they should. */
  lemma {:induction false} QuotedNoNul(t: seq<char>, i: nat, q: char)
    requires i <= |t| && NUL !in t
    ensures NUL !in Quoted(t, i, q).0
    decreases |t| - i
  {
    if i < |t| && t[i] != q {
      QuotedNoNul(t, i + 1, q);
    }
  }

  lemma {:induction false} WordNoNul(t: seq<char>, i: nat)
    requires i <= |t| && NUL !in t
    ensures NUL !in Word(t, i).0
    decreases |t| - i
  {
    if i == |t| || Blank(t[i]) || Newline(t[i]) {
    } else if t[i] == '"' || t[i] == '\'' {
      QuotedNoNul(t, i + 1, t[i]);
      WordNoNul(t, Quoted(t, i + 1, t[i]).1);
    } else if t[i] == '\\' {
      if i + 1 < |t| {
        assert t[i + 1] != NUL;
        WordNoNul(t, i + 2);
      }
    } else {
      assert t[i] != NUL;
      WordNoNul(t, i + 1);
    }
  }

  lemma {:induction false} WordsNoNul(t: seq<char>, i: nat)
    requires i <= |t| && NUL !in t
    ensures forall k :: 0 <= k < |Words(t, i).0| ==> NUL !in Words(t, i).0[k]
    decreases |t| - i
  {
    var j := SkipBlanks(t, i);
    if j < |t| && !Newline(t[j]) {
      WordNoNul(t, j);
      if Word(t, j).2.AtBlank? {
        WordsNoNul(t, Word(t, j).1);
      }
    }
  }

  // ---------------------------------------------------------------- its inverse

  /** A character as it must be typed to be taken literally. */
  function Typed(c: char): seq<char> {
    if c == '"' || c == '\'' || c == '\\' || Blank(c) || Newline(c) then ['\\', c] else [c]
  }

  function TypedWord(w: seq<char>): seq<char> {
    if w == [] then [] else Typed(w[0]) + TypedWord(w[1..])
  }

  /** A line that spells the given words; empty quotes make room for an empty word. */
  function TypedLine(ws: seq<seq<char>>): seq<char> {
    if ws == [] then ['\n'] else ['"', '"'] + TypedWord(ws[0]) + [' '] + TypedLine(ws[1..])
  }

  lemma EmptyQuotes(t: seq<char>, i: nat)
    requires i + 2 <= |t| && t[i] == '"' && t[i + 1] == '"'
    ensures Word(t, i) == Word(t, i + 2)
  {
    assert Quoted(t, i + 1, '"') == ([], i + 2);
    assert [] + Word(t, i + 2).0 == Word(t, i + 2).0;
  }

  lemma WordStops(t: seq<char>, i: nat)
    requires i < |t| && Blank(t[i])
    ensures Word(t, i) == ([], i + 1, AtBlank)
  {
  }

  lemma WordGoesOn(t: seq<char>, i: nat, c: char)
    requires i + |Typed(c)| <= |t| && t[i..i + |Typed(c)|] == Typed(c)
    ensures var (more, k, e) := Word(t, i + |Typed(c)|);
      Word(t, i) == ([c] + more, k, e)
  {
    assert t[i] == t[i..i + |Typed(c)|][0];
    if |Typed(c)| == 2 {
      assert t[i + 1] == t[i..i + |Typed(c)|][1];
      assert Escape(c) == c;
    }
  }

  lemma TypedWordForm(w: seq<char>)
    ensures TypedWord(w) == if w == [] then [] else Typed(w[0]) + TypedWord(w[1..])
  {
  }

  lemma SplitFront(pre: seq<char>, c: seq<char>, rest: seq<char>, tail: seq<char>)
    ensures pre + (c + rest) + tail == (pre + c) + rest + tail
    ensures (pre + (c + rest) + tail)[|pre|..|pre| + |c|] == c
  {
    assert pre + (c + rest) == (pre + c) + rest;
  }

  lemma {:induction false} TypedWordReads(pre: seq<char>, w: seq<char>, tail: seq<char>)
    requires tail != [] && Blank(tail[0])
    ensures Word(pre + TypedWord(w) + tail, |pre|) == (w, |pre| + |TypedWord(w)| + 1, AtBlank)
    decreases |w|
  {
    hide Word, TypedWord, Typed;
    var t := pre + TypedWord(w) + tail;
    TypedWordForm(w);
    if w == [] {
      assert t[|pre|] == tail[0];
      WordStops(t, |pre|);
    } else {
      var c, rest := Typed(w[0]), TypedWord(w[1..]);
      SplitFront(pre, c, rest, tail);
      TypedWordReads(pre + c, w[1..], tail);
      WordGoesOn(t, |pre|, w[0]);
      assert w == [w[0]] + w[1..];
    }
  }

  lemma QuotedWordReads(pre: seq<char>, w: seq<char>, tail: seq<char>)
    requires tail != [] && Blank(tail[0])
    ensures Word(pre + (['"', '"'] + TypedWord(w) + tail), |pre|) == (w, |pre| + 2 + |TypedWord(w)| + 1, AtBlank)
  {
    hide Word, TypedWord;
    var t := pre + (['"', '"'] + TypedWord(w) + tail);
    assert t == (pre + ['"', '"']) + TypedWord(w) + tail;
    TypedWordReads(pre + ['"', '"'], w, tail);
    EmptyQuotes(t, |pre|);
  }

  /** Any list of words can be typed, whatever they contain, and is read back unchanged. */
  lemma {:induction false} TypedLineReads(pre: seq<char>, ws: seq<seq<char>>, post: seq<char>)
    ensures var t := pre + TypedLine(ws) + post;
      Words(t, |pre|) == (ws, |pre| + |TypedLine(ws)|)
    decreases |ws|
  {
    hide Word, Words, TypedWord, SkipBlanks;
    var t := pre + TypedLine(ws) + post;
    WordsStep(t, |pre|, []);
    if ws == [] {
      assert t[|pre|] == '\n';
      NoBlank(t, |pre|);
    } else {
      var head := ['"', '"'] + TypedWord(ws[0]) + [' '];
      LineSplits(pre, ws, post);
      QuotedWordReads(pre, ws[0], [' '] + (TypedLine(ws[1..]) + post));
      TypedLineReads(pre + head, ws[1..], post);
      assert t[|pre|] == '"';
      NoBlank(t, |pre|);
      assert [] + Words(t, |pre|).0 == Words(t, |pre|).0;
      assert [] + [ws[0]] + ws[1..] == ws;
    }
  }

  lemma LineSplits(pre: seq<char>, ws: seq<seq<char>>, post: seq<char>)
    requires ws != []
    ensures var t := pre + TypedLine(ws) + post;
      && t == pre + (['"', '"'] + TypedWord(ws[0]) + ([' '] + (TypedLine(ws[1..]) + post)))
      && t == (pre + (['"', '"'] + TypedWord(ws[0]) + [' '])) + TypedLine(ws[1..]) + post
  {
    hide TypedWord;
    Regroup(pre, ['"', '"'], TypedWord(ws[0]), [' '], TypedLine(ws[1..]), post);
  }

  lemma Regroup(a: seq<char>, b: seq<char>, c: seq<char>, d: seq<char>, e: seq<char>, f: seq<char>)
    ensures a + (b + c + d + e) + f == a + (b + c + (d + (e + f)))
    ensures a + (b + c + d + e) + f == (a + (b + c + d)) + e + f
  {
    var left := b + c + d + e;
    assert left + f == b + c + (d + (e + f));
    assert a + left == (a + (b + c + d)) + e;
  }

  lemma NoBlank(t: seq<char>, i: nat)
    requires i < |t| && !Blank(t[i])
    ensures SkipBlanks(t, i) == i
  {
  }

  // ---------------------------------------------------------------- the buffer

  /** `t` is the text of a NUL-terminated buffer `b` as far as it has not been read: from `s` on
      the buffer still holds it. */
  ghost predicate Unread(b: seq<char>, t: seq<char>, s: nat) {
    && s <= |t| < |b| && NUL !in t
    && b[|t|] == NUL
    && forall i :: s <= i < |t| ==> b[i] == t[i]
  }

  /** The C string at `p`. */
  ghost predicate Holds(b: seq<char>, p: nat, w: seq<char>) {
    p + |w| < |b| && b[p..p + |w|] == w && b[p + |w|] == NUL
  }

  /** A word being copied: the buffer was `b0` when it began at `d0`; now the read cursor is at
      `s`, the write cursor at `d`, and `out` has been written between `d0` and `d`.  The
      first pass reads without writing. */
  ghost predicate Copying(
    b0: seq<char>, b: seq<char>, t: seq<char>, d0: nat, d: nat, s: nat, out: seq<char>, write: bool)
  {
    && |b| == |b0| && Unread(b, t, s)
    && d0 <= d <= s
    && b[..d0] == b0[..d0] && b[s..] == b0[s..]
    && (if write then d == d0 + |out| && b[d0..d] == out else d == d0 && b == b0)
  }

  lemma ReadOn(b0: seq<char>, b: seq<char>, t: seq<char>, d0: nat, d: nat, s: nat, out: seq<char>, write: bool, s1: nat)
    requires Copying(b0, b, t, d0, d, s, out, write) && s <= s1 <= |t|
    ensures Copying(b0, b, t, d0, d, s1, out, write)
  {
    assert b[s1..] == b[s..][s1 - s..] && b0[s1..] == b0[s..][s1 - s..];
  }

  /** Store one character behind the read cursor, which has moved on to `s1`. */
  method Put(buf: array<char>, d: nat, c: char, write: bool,
             ghost b0: seq<char>, ghost t: seq<char>, ghost d0: nat, ghost s: nat, ghost out: seq<char>, ghost s1: nat)
    returns (d': nat)
    requires Copying(b0, buf[..], t, d0, d, s, out, write) && s < s1 <= |t|
    modifies buf
    ensures Copying(b0, buf[..], t, d0, d', s1, out + [c], write)
  {
    d' := d;
    ReadOn(b0, buf[..], t, d0, d, s, out, write, s1);
    if write {
      ghost var b := buf[..];
      buf[d] := c;
      d' := d + 1;
      assert buf[..] == b[d := c];
      assert buf[..][s1..] == b[s1..] && buf[..][..d0] == b[..d0];
      assert buf[..][d0..d'] == b[d0..d] + [c];
    }
  }

  /** The inner loop over a quoted stretch. */
  method CopyQuoted(buf: array<char>, s0: nat, dIn: nat, q: char, write: bool,
                    ghost b0: seq<char>, ghost t: seq<char>, ghost d0: nat, ghost out0: seq<char>)
    returns (s: nat, d: nat)
    requires Copying(b0, buf[..], t, d0, dIn, s0, out0, write) && q != NUL
    modifies buf
    ensures s == Quoted(t, s0, q).1
    ensures Copying(b0, buf[..], t, d0, d, s, out0 + Quoted(t, s0, q).0, write)
  {
    hide Copying;
    s, d := s0, dIn;
    ghost var out := out0;
    CursorFacts(b0, buf[..], t, d0, d, s, out, write);
    while buf[s] != NUL && buf[s] != q
      invariant Copying(b0, buf[..], t, d0, d, s, out, write)
      invariant s <= |t| < buf.Length && (buf[s] == NUL <==> s == |t|) && (s < |t| ==> buf[s] == t[s])
      invariant out + Quoted(t, s, q).0 == out0 + Quoted(t, s0, q).0
      invariant Quoted(t, s, q).1 == Quoted(t, s0, q).1
      decreases |t| - s
    {
      ghost var c := t[s];
      d := Put(buf, d, buf[s], write, b0, t, d0, s, out, s + 1);
      assert out + ([c] + Quoted(t, s + 1, q).0) == (out + [c]) + Quoted(t, s + 1, q).0;
      out, s := out + [c], s + 1;
      CursorFacts(b0, buf[..], t, d0, d, s, out, write);
    }
    assert out + [] == out;
    if buf[s] == q {
      ReadOn(b0, buf[..], t, d0, d, s, out, write, s + 1);
      s := s + 1;
    }
  }

  lemma CursorFacts(b0: seq<char>, b: seq<char>, t: seq<char>, d0: nat, d: nat, s: nat, out: seq<char>, write: bool)
    requires Copying(b0, b, t, d0, d, s, out, write)
    ensures s <= |t| < |b| && d <= s && (b[s] == NUL <==> s == |t|) && (s < |t| ==> b[s] == t[s])
  {
  }

  /** One turn of the word loop: what it adds to the word and where it goes on. */
  function Turn(t: seq<char>, i: nat): (r: (seq<char>, nat))
    requires i < |t| && !Blank(t[i]) && !Newline(t[i])
    ensures i < r.1 <= |t|
  {
    if t[i] == '"' || t[i] == '\'' then Quoted(t, i + 1, t[i])
    else if t[i] == '\\' then if i + 1 == |t| then ([], i + 1) else ([Escape(t[i + 1])], i + 2)
    else ([t[i]], i + 1)
  }

  lemma WordTurns(t: seq<char>, i: nat, out: seq<char>)
    requires i <= |t|
    ensures i < |t| && !Blank(t[i]) && !Newline(t[i]) ==>
      var (part, j) := Turn(t, i);
      && out + Word(t, i).0 == (out + part) + Word(t, j).0
      && Word(t, i).1 == Word(t, j).1 && Word(t, i).2 == Word(t, j).2
    ensures i < |t| && (Blank(t[i]) || Newline(t[i])) ==>
      out + Word(t, i).0 == out && Word(t, i).1 == i + 1 && Word(t, i).2 == if Blank(t[i]) then AtBlank else AtNewline
    ensures i == |t| ==> out + Word(t, i).0 == out && Word(t, i).1 == i && Word(t, i).2 == AtEnd
  {
    if i < |t| && !Blank(t[i]) && !Newline(t[i]) {
      var (part, j) := Turn(t, i);
      assert Word(t, i).0 == part + Word(t, j).0;
    }
  }

  /** The body of the word loop for a character that does not end the word. */
  method CopyTurn(buf: array<char>, sIn: nat, dIn: nat, write: bool,
                  ghost b0: seq<char>, ghost t: seq<char>, ghost d0: nat, ghost out: seq<char>)
    returns (s: nat, d: nat)
    requires Copying(b0, buf[..], t, d0, dIn, sIn, out, write)
    requires sIn < |t| && !Blank(t[sIn]) && !Newline(t[sIn])
    modifies buf
    ensures s == Turn(t, sIn).1
    ensures Copying(b0, buf[..], t, d0, d, s, out + Turn(t, sIn).0, write)
  {
    hide Copying, Quoted, Blank, Newline, Escape;
    s, d := sIn, dIn;
    CursorFacts(b0, buf[..], t, d0, d, s, out, write);
    var c := buf[s];
    if c == '"' || c == '\'' {
      ReadOn(b0, buf[..], t, d0, d, s, out, write, s + 1);
      s, d := CopyQuoted(buf, s + 1, d, c, write, b0, t, d0, out);
    } else if c == '\\' {
      ReadOn(b0, buf[..], t, d0, d, s, out, write, s + 1);
      CursorFacts(b0, buf[..], t, d0, d, s + 1, out, write);
      s := s + 1;
      if buf[s] != NUL {
        d := Put(buf, d, Escape(buf[s]), write, b0, t, d0, s, out, s + 1);
        s := s + 1;
      } else {
        assert out + [] == out;
      }
    } else {
      d := Put(buf, d, c, write, b0, t, d0, s, out, s + 1);
      s := s + 1;
    }
  }

  /** The loop over one word, up to its end but before the terminator is stored. */
  method CopyWord(buf: array<char>, s0: nat, dIn: nat, write: bool,
                  ghost b0: seq<char>, ghost t: seq<char>)
    returns (s: nat, d: nat, ending: Ending)
    requires Copying(b0, buf[..], t, dIn, dIn, s0, [], write)
    modifies buf
    ensures (s, ending) == (Word(t, s0).1, Word(t, s0).2)
    ensures Copying(b0, buf[..], t, dIn, d, s, Word(t, s0).0, write)
    ensures !ending.AtEnd? ==> d < s
  {
    hide Copying, Word, Blank, Newline, Turn;
    s, d := s0, dIn;
    ghost var out := [];
    CursorFacts(b0, buf[..], t, dIn, d, s, out, write);
    ghost var spec := Word(t, s0);
    assert [] + spec.0 == spec.0;
    while buf[s] != NUL
      invariant Copying(b0, buf[..], t, dIn, d, s, out, write)
      invariant d <= s <= |t| < buf.Length && (buf[s] == NUL <==> s == |t|) && (s < |t| ==> buf[s] == t[s])
      invariant spec == (out + Word(t, s).0, Word(t, s).1, Word(t, s).2)
      decreases |t| - s
    {
      WordTurns(t, s, out);
      if Blank(buf[s]) || Newline(buf[s]) {
        ReadOn(b0, buf[..], t, dIn, d, s, out, write, s + 1);
        return s + 1, d, if Blank(buf[s]) then AtBlank else AtNewline;
      }
      ghost var part := Turn(t, s).0;
      s, d := CopyTurn(buf, s, d, write, b0, t, dIn, out);
      out := out + part;
      CursorFacts(b0, buf[..], t, dIn, d, s, out, write);
    }
    WordTurns(t, s, out);
    ending := AtEnd;
  }

  // ---------------------------------------------------------------- one pass, both passes

  /** The state of a pass between words: `ws` were found, the write cursor is at `d`, and in the
      second pass `argv[k]` points at word `k`. */
  ghost predicate Scanning(b0: seq<char>, b: seq<char>, t: seq<char>, start: nat, d: nat, s: nat,
                           ws: seq<seq<char>>, argv: seq<nat>, write: bool)
  {
    && |b| == |b0| && Unread(b, t, s) && start <= s && start <= d <= s + 1 && (s < |t| ==> d <= s)
    && b[..start] == b0[..start] && b[s..] == b0[s..]
    && (if write then
          && |argv| == |ws|
          && forall k :: 0 <= k < |ws| ==> start <= argv[k] && argv[k] + |ws[k]| < d && Holds(b, argv[k], ws[k])
        else b == b0 && d == start)
  }

  lemma ScanCursor(b0: seq<char>, b: seq<char>, t: seq<char>, start: nat, d: nat, s: nat,
                   ws: seq<seq<char>>, argv: seq<nat>, write: bool)
    requires Scanning(b0, b, t, start, d, s, ws, argv, write)
    ensures s <= |t| < |b| && (b[s] == NUL <==> s == |t|) && (s < |t| ==> b[s] == t[s] && d <= s)
  {
  }

  lemma ScanOn(b0: seq<char>, b: seq<char>, t: seq<char>, start: nat, d: nat, s: nat,
               ws: seq<seq<char>>, argv: seq<nat>, write: bool, s1: nat)
    requires Scanning(b0, b, t, start, d, s, ws, argv, write) && s <= s1 <= |t|
    ensures Scanning(b0, b, t, start, d, s1, ws, argv, write)
  {
    assert b[s1..] == b[s..][s1 - s..] && b0[s1..] == b0[s..][s1 - s..];
  }

  lemma HoldsKept(b: seq<char>, e: seq<char>, d: nat, p: nat, w: seq<char>)
    requires d <= |b| && d <= |e| && e[..d] == b[..d]
    requires Holds(b, p, w) && p + |w| < d
    ensures Holds(e, p, w)
  {
    forall i | 0 <= i < d ensures e[i] == b[i] {
      assert e[i] == e[..d][i] && b[i] == b[..d][i];
    }
    assert e[p..p + |w|] == b[p..p + |w|];
  }

  /** A finished word: `c` is the buffer after copying, `e` after its terminator was stored. */
  lemma WordStored(
    b0: seq<char>, b: seq<char>, c: seq<char>, t: seq<char>, start: nat, d: nat, d1: nat, s: nat, s1: nat,
    ws: seq<seq<char>>, argv: seq<nat>, w: seq<char>)
    requires Scanning(b0, b, t, start, d, s, ws, argv, true) && s <= s1
    requires Copying(b, c, t, d, d1, s1, w, true)
    requires d1 < s1 || s1 == |t|
    ensures Scanning(b0, c[d1 := NUL], t, start, d1 + 1, s1, ws + [w], argv + [d], true)
  {
    var e := c[d1 := NUL];
    assert e[..d] == c[..d];
    assert e[..start] == c[..d][..start] == b[..d][..start] == b[..start];
    assert c[s1..] == b[s1..] == b[s..][s1 - s..] && b0[s1..] == b0[s..][s1 - s..];
    assert e[s1..] == c[s1..] by {
      if d1 == s1 {
        assert c[|t|] == NUL;
      }
    }
    forall k | 0 <= k < |ws| ensures Holds(e, argv[k], ws[k]) {
      HoldsKept(b, e, d, argv[k], ws[k]);
    }
    assert e[d..d1] == c[d..d1];
  }

  lemma WordUnread(b0: seq<char>, b: seq<char>, t: seq<char>, start: nat, d: nat, s: nat,
                   ws: seq<seq<char>>, argv: seq<nat>, write: bool)
    requires Scanning(b0, b, t, start, d, s, ws, argv, write) && s < |t|
    ensures Copying(b, b, t, d, d, s, [], write)
  {
  }

  /** A first-pass word leaves the scan as it was, further on. */
  lemma WordCounted(
    b0: seq<char>, b: seq<char>, c: seq<char>, t: seq<char>, start: nat, d: nat, d1: nat, s: nat, s1: nat,
    ws: seq<seq<char>>, w: seq<char>)
    requires Scanning(b0, b, t, start, d, s, ws, [], false) && s <= s1
    requires Copying(b, c, t, d, d1, s1, w, false)
    ensures Scanning(b0, c, t, start, d1, s1, ws + [w], [], false)
  {
  }

  /** Skip the blanks before a word. */
  method SkipTo(buf: array<char>, s0: nat, ghost t: seq<char>) returns (s: nat)
    requires Unread(buf[..], t, s0)
    ensures s == SkipBlanks(t, s0)
  {
    s := s0;
    while Blank(buf[s])
      invariant s0 <= s <= |t| && SkipBlanks(t, s) == SkipBlanks(t, s0)
      decreases |t| - s
    {
      s := s + 1;
    }
  }

  /** One turn of the outer loop of a pass. */
  lemma WordsStep(t: seq<char>, i: nat, ws: seq<seq<char>>)
    requires i <= |t|
    ensures var j := SkipBlanks(t, i);
      && (j == |t| ==> Words(t, i) == ([], j))
      && (j < |t| && Newline(t[j]) ==> Words(t, i) == ([], j + 1))
      && (j < |t| && !Newline(t[j]) ==>
            var (w, k, e) := Word(t, j);
            if e.AtBlank? then
              ws + Words(t, i).0 == (ws + [w]) + Words(t, k).0 && Words(t, i).1 == Words(t, k).1
            else Words(t, i) == ([w], k))
  {
    var j := SkipBlanks(t, i);
    if j < |t| && !Newline(t[j]) && Word(t, j).2.AtBlank? {
      var w := Word(t, j).0;
      var more := Words(t, Word(t, j).1).0;
      assert ws + ([w] + more) == (ws + [w]) + more;
    }
  }

  /** One word of a pass: count it and, in the second pass, lay it out and point at it. */
  method TakeWord(buf: array<char>, sIn: nat, dIn: nat, argvIn: seq<nat>, write: bool,
                  ghost b0: seq<char>, ghost t: seq<char>, ghost start: nat, ghost ws: seq<seq<char>>)
    returns (s: nat, d: nat, argv: seq<nat>, ending: Ending)
    requires Scanning(b0, buf[..], t, start, dIn, sIn, ws, argvIn, write) && sIn < |t|
    requires !write ==> argvIn == []
    modifies buf
    ensures (s, ending) == (Word(t, sIn).1, Word(t, sIn).2)
    ensures Scanning(b0, buf[..], t, start, d, s, ws + [Word(t, sIn).0], argv, write)
    ensures !write ==> argv == []
  {
    hide Word, Scanning, Copying, Unread;
    ghost var b := buf[..];
    ghost var w := Word(t, sIn).0;
    WordUnread(b0, b, t, start, dIn, sIn, ws, argvIn, write);
    argv := argvIn;
    s, d, ending := CopyWord(buf, sIn, dIn, write, b, t);
    if write {
      TerminatorFits(b, buf[..], t, dIn, d, s, w);
      WordStored(b0, b, buf[..], t, start, dIn, d, sIn, s, ws, argvIn, w);
      ghost var c := buf[..];
      buf[d] := NUL;
      assert buf[..] == c[d := NUL];
      argv, d := argv + [dIn], d + 1;
    } else {
      WordCounted(b0, b, buf[..], t, start, dIn, d, sIn, s, ws, w);
    }
  }

  /** One pass over a line: counts its words and, when `write` is set, lays them out. */
  method Pass(buf: array<char>, start: nat, write: bool, ghost t: seq<char>)
    returns (argc: nat, argv: seq<nat>, s: nat, ghost d: nat)
    requires Unread(buf[..], t, start)
    modifies buf
    ensures argc == |Words(t, start).0| && s == Words(t, start).1
    ensures Scanning(old(buf[..]), buf[..], t, start, d, s, Words(t, start).0, argv, write)
  {
    hide Word, Words, SkipBlanks, Newline;
    ghost var b0 := buf[..];
    ghost var ws: seq<seq<char>> := [];
    assert [] + Words(t, start).0 == Words(t, start).0;
    argc, argv, s := 0, [], start;
    var to: nat := start;
    while buf[s] != NUL
      invariant Scanning(b0, buf[..], t, start, to, s, ws, argv, write)
      invariant s <= |t| < buf.Length && (buf[s] == NUL <==> s == |t|)
      invariant argc == |ws| && (!write ==> argv == [])
      invariant Words(t, start).0 == ws + Words(t, s).0 && Words(t, start).1 == Words(t, s).1
      decreases |t| - s
    {
      hide Scanning, Unread;
      ScanUnread(b0, buf[..], t, start, to, s, ws, argv, write);
      WordsStep(t, s, ws);
      var j := SkipTo(buf, s, t);
      ScanOn(b0, buf[..], t, start, to, s, ws, argv, write, j);
      ScanCursor(b0, buf[..], t, start, to, j, ws, argv, write);
      s := j;
      if Newline(buf[s]) {
        NewlineNotNul(buf[s]);
        ScanOn(b0, buf[..], t, start, to, s, ws, argv, write, s + 1);
        assert ws + [] == ws;
        return argc, argv, s + 1, to;
      }
      if buf[s] != NUL {
        var ending;
        ghost var w := Word(t, s).0;
        s, to, argv, ending := TakeWord(buf, s, to, argv, write, b0, t, start, ws);
        argc, ws := argc + 1, ws + [w];
        ScanCursor(b0, buf[..], t, start, to, s, ws, argv, write);
        if !ending.AtBlank? {
          return argc, argv, s, to;
        }
      } else {
        WordsAtEnd(t);
      }
    }
    WordsAtEnd(t);
    assert ws + [] == ws;
    d := to;
  }

  lemma NewlineNotNul(c: char)
    requires Newline(c)
    ensures c != NUL
  {
  }

  lemma WordsAtEnd(t: seq<char>)
    ensures Words(t, |t|) == ([], |t|)
  {
  }

  lemma TerminatorFits(b: seq<char>, c: seq<char>, t: seq<char>, d: nat, d1: nat, s1: nat, w: seq<char>)
    requires Copying(b, c, t, d, d1, s1, w, true)
    ensures d1 <= s1 <= |t| < |c|
  {
  }

  lemma ScanUnread(b0: seq<char>, b: seq<char>, t: seq<char>, start: nat, d: nat, s: nat,
                   ws: seq<seq<char>>, argv: seq<nat>, write: bool)
    requires Scanning(b0, b, t, start, d, s, ws, argv, write)
    ensures Unread(b, t, s)
  {
  }

  /** `argcargv`: count the words of the line at `start`, then lay them out if the caller wants
      them.  Both passes see the same text and stop at the same place; `argv[k]` is the
      C string of word `k`; the lines behind are untouched. */
  method Split(buf: array<char>, start: nat, want: bool, ghost t: seq<char>)
    returns (argc: nat, argv: seq<nat>, s: nat)
    requires Unread(buf[..], t, start)
    modifies buf
    ensures var (ws, j) := Words(t, start);
      && argc == |ws| && s == j
      && Unread(buf[..], t, s)
      && buf[..start] == old(buf[..start]) && buf[s..] == old(buf[s..])
      && (!want ==> buf[..] == old(buf[..]) && argv == [])
      && (want ==>
            && |argv| == argc
            && forall k :: 0 <= k < argc ==> start <= argv[k] <= s && NUL !in ws[k] && Holds(buf[..], argv[k], ws[k]))
  {
    hide Words;
    ghost var b0 := buf[..];
    WordsNoNul(t, start);
    ghost var d;
    argc, argv, s, d := Pass(buf, start, false, t);
    argv := [];
    if want {
      var counted := argc;
      argc, argv, s, d := Pass(buf, start, true, t);
      assert counted == argc;
      LastWordBound(b0, buf[..], t, start, d, s, Words(t, start).0, argv);
    }
    assert buf[..][s..] == buf[s..] && buf[..][..start] == buf[..start];
  }

  /** Every word starts at or before the read cursor, since it was read before it was written. */
  lemma LastWordBound(b0: seq<char>, b: seq<char>, t: seq<char>, start: nat, d: nat, s: nat,
                      ws: seq<seq<char>>, argv: seq<nat>)
    requires Scanning(b0, b, t, start, d, s, ws, argv, true)
    ensures forall k :: 0 <= k < |ws| ==> start <= argv[k] <= s
  {
  }

  // ---------------------------------------------------------------- the lines of a script

  /** The words of each line from position `i` on. */
  function Lines(t: seq<char>, i: nat): seq<seq<seq<char>>>
    requires i <= |t|
    decreases |t| - i
  {
    if i == |t| then [] else [Words(t, i).0] + Lines(t, Words(t, i).1)
  }

  /** The text of a file as a C string. */
  function FileText(content: seq<char>): (t: seq<char>)
    ensures t <= content && NUL !in t && (t == content || content[|t|] == NUL)
  {
    if content == [] || content[0] == NUL then [] else [content[0]] + FileText(content[1..])
  }

  /** The script a line asks to be evaluated, if it does. */
  function Sourced(files: map<seq<char>, seq<char>>, line: seq<seq<char>>): Option<seq<char>> {
    if |line| == 2 && line[0] == "source" && line[1] in files then Some(FileText(files[line[1]])) else None
  }

  /** The lines that are carried out, with those of nested scripts in their place: lines with
      words, up to and including "exit", which ends its own script only.  `None` if the scripts
      nest deeper than `depth`. */
  function Run(files: map<seq<char>, seq<char>>, lines: seq<seq<seq<char>>>, depth: nat)
    : Option<seq<seq<seq<char>>>>
    decreases depth, |lines|
  {
    if lines == [] then Some([])
    else if lines[0] == [] then Run(files, lines[1..], depth)
    else if lines[0][0] == "exit" then Some([lines[0]])
    else
      var nested := Nested(files, lines[0], depth);
      var rest := Run(files, lines[1..], depth);
      if nested.None? || rest.None? then None else Some([lines[0]] + nested.value + rest.value)
  }

  function Nested(files: map<seq<char>, seq<char>>, line: seq<seq<char>>, depth: nat): Option<seq<seq<seq<char>>>>
    decreases depth, 0
  {
    var script := Sourced(files, line);
    if script.None? then Some([])
    else if depth == 0 then None
    else Run(files, Lines(script.value, 0), depth - 1)
  }

  /** The depth is only a bound: any that suffices gives the same commands. */
  lemma {:induction false} DepthSuffices(
    files: map<seq<char>, seq<char>>, lines: seq<seq<seq<char>>>, depth: nat, more: nat)
    requires depth <= more && Run(files, lines, depth).Some?
    ensures Run(files, lines, more) == Run(files, lines, depth)
    decreases depth, |lines|
  {
    hide Lines;
    if lines != [] && (lines[0] == [] || lines[0][0] != "exit") {
      DepthSuffices(files, lines[1..], depth, more);
      if lines[0] != [] && Sourced(files, lines[0]).Some? {
        DepthSuffices(files, Lines(Sourced(files, lines[0]).value, 0), depth - 1, more - 1);
      }
    }
  }

  /** A line that is reached and nests too deep. */
  lemma {:induction false} Reached(
    files: map<seq<char>, seq<char>>, lines: seq<seq<seq<char>>>, k: nat, depth: nat)
    requires k < |lines| && lines[k] != [] && lines[k][0] != "exit" && Nested(files, lines[k], depth).None?
    requires forall i :: 0 <= i < k ==> lines[i] == [] || lines[i][0] != "exit"
    ensures Run(files, lines, depth) == None
  {
    if k > 0 {
      assert lines[1..][k - 1] == lines[k];
      Reached(files, lines[1..], k - 1, depth);
    }
  }

  /** The C string at `p`, up to its terminator. */
  method StringAt(buf: array<char>, p: nat, ghost w: seq<char>) returns (r: seq<char>)
    requires Holds(buf[..], p, w) && NUL !in w
    ensures r == w
  {
    var i := p;
    forall k | p <= k < p + |w| ensures buf[k] != NUL {
      assert w[k - p] == buf[..][k];
    }
    while buf[i] != NUL
      invariant p <= i <= p + |w| < buf.Length
      decreases p + |w| - i
    {
      i := i + 1;
    }
    r := buf[p..i];
    assert r == buf[..][p..p + |w|];
  }

  /** The argument vector as a list of strings. */
  method Collect(buf: array<char>, argv: seq<nat>, ghost ws: seq<seq<char>>) returns (line: seq<seq<char>>)
    requires |argv| == |ws|
    requires forall k :: 0 <= k < |ws| ==> NUL !in ws[k] && Holds(buf[..], argv[k], ws[k])
    ensures line == ws
  {
    line := [];
    for i := 0 to |argv|
      invariant line == ws[..i]
    {
      var w := StringAt(buf, argv[i], ws[i]);
      line := line + [w];
    }
  }

  /** A file read into memory of its own, with a terminator. */
  method Load(content: seq<char>) returns (buf: array<char>)
    ensures fresh(buf) && Unread(buf[..], FileText(content), 0)
  {
    buf := new char[|content| + 1](i requires 0 <= i <= |content| =>
      if i < |content| then content[i] else NUL);
  }

  /** `eval`: each line is split once, where the last one ended; a `source` command evaluates its
      file before the next line.  `None` if the scripts nest deeper than `depth`. */
  method Eval(files: map<seq<char>, seq<char>>, buf: array<char>, depth: nat, ghost t: seq<char>)
    returns (ran: Option<seq<seq<seq<char>>>>)
    requires Unread(buf[..], t, 0)
    modifies buf
    ensures ran == Run(files, Lines(t, 0), depth)
    decreases depth, 1
  {
    hide Words, Run, Unread, Lines;
    var done: seq<seq<seq<char>>> := [];
    var s := 0;
    NothingRan(files, t, depth);
    StillThere(buf[..], t, s);
    while buf[s] != NUL
      invariant Unread(buf[..], t, s) && s <= |t| < buf.Length && (buf[s] == NUL <==> s == |t|)
      invariant Run(files, Lines(t, 0), depth) == After(done, Run(files, Lines(t, s), depth))
      decreases |t| - s
    {
      ghost var at := s;
      ghost var ws := Words(t, s).0;
      RunStep(files, t, at, depth, done);
      var argc, argv;
      argc, argv, s := Split(buf, s, true, t);
      StillThere(buf[..], t, s);
      if argc > 0 {
        var line := Collect(buf, argv, ws);
        done := done + [line];
        if line[0] == "exit" {
          return Some(done);
        }
        if |line| == 2 && line[0] == "source" && line[1] in files {
          if depth == 0 {
            return None;
          }
          var script := Load(files[line[1]]);
          var inner := Eval(files, script, depth - 1, FileText(files[line[1]]));
          if inner.None? {
            return None;
          }
          done := done + inner.value;
        }
      }
    }
    RunEmpty(files, t, depth, done);
    return Some(done);
  }

  function After(done: seq<seq<seq<char>>>, rest: Option<seq<seq<seq<char>>>>): Option<seq<seq<seq<char>>>> {
    if rest.None? then None else Some(done + rest.value)
  }

  lemma StillThere(b: seq<char>, t: seq<char>, s: nat)
    requires Unread(b, t, s)
    ensures s <= |t| < |b| && (b[s] == NUL <==> s == |t|)
  {
  }

  lemma NothingRan(files: map<seq<char>, seq<char>>, t: seq<char>, depth: nat)
    ensures After([], Run(files, Lines(t, 0), depth)) == Run(files, Lines(t, 0), depth)
  {
    hide Run, Lines;
    var r := Run(files, Lines(t, 0), depth);
    if r.Some? {
      assert [] + r.value == r.value;
    }
  }

  lemma RunEmpty(files: map<seq<char>, seq<char>>, t: seq<char>, depth: nat, done: seq<seq<seq<char>>>)
    ensures After(done, Run(files, Lines(t, |t|), depth)) == Some(done)
  {
    assert Lines(t, |t|) == [];
    assert done + [] == done;
  }

  /** One line of a script. */
  lemma RunStep(files: map<seq<char>, seq<char>>, t: seq<char>, i: nat, depth: nat, done: seq<seq<seq<char>>>)
    requires i < |t|
    ensures var (ws, j) := Words(t, i);
      var all, rest := After(done, Run(files, Lines(t, i), depth)), Run(files, Lines(t, j), depth);
      if ws == [] then all == After(done, rest)
      else if ws[0] == "exit" then all == Some(done + [ws])
      else if Sourced(files, ws).None? then all == After(done + [ws], rest)
      else if depth == 0 then all == None
      else
        var inner := Run(files, Lines(FileText(files[ws[1]]), 0), depth - 1);
        all == if inner.None? then None else After(done + [ws] + inner.value, rest)
  {
    hide Words;
    var (ws, j) := Words(t, i);
    LinesStep(t, i);
    hide Lines;
    var lines := Lines(t, i);
    var rest := Run(files, lines[1..], depth);
    var nested := if ws == [] || ws[0] == "exit" then None else Nested(files, ws, depth);
    if rest.Some? && nested.Some? {
      assert done + ([ws] + nested.value + rest.value) == (done + [ws] + nested.value) + rest.value;
      assert done + [ws] + [] == done + [ws];
    }
  }

  lemma LinesStep(t: seq<char>, i: nat)
    requires i < |t|
    ensures var (ws, j) := Words(t, i);
      Lines(t, i) != [] && Lines(t, i)[0] == ws && Lines(t, i)[1..] == Lines(t, j)
  {
    hide Words;
  }
}
