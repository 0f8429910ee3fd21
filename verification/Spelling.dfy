/** How a line may be written: words of plain, escaped and quoted stretches in any mixture, and what
    the tokenizer reads in them. */
module Spelling {
  import opened ArgcArgv

  type Text = seq<char>

  predicate Quote(c: char) { c == '"' || c == '\'' }

  /** A stretch of a word: a character that stands for itself, one behind a backslash, or a text in
      quotes of either kind. */
  datatype Piece = Plain(c: char) | Escaped(c: char) | InQuotes(q: char, text: Text)

  predicate Proper(p: Piece) {
    match p
    case Plain(c) => !Quote(c) && c != '\\' && c != ' ' && c != '\t' && c != '\n' && c != '\r'
    case Escaped(_) => true
    case InQuotes(q, text) => Quote(q) && q !in text
  }

  function Written(p: Piece): Text {
    match p
    case Plain(c) => [c]
    case Escaped(c) => ['\\', c]
    case InQuotes(q, text) => [q] + text + [q]
  }

  /** What a stretch stands for: behind a backslash t, n and r are tab, newline and return, and every
      other character is itself; between quotes every character is itself. */
  function Meaning(p: Piece): Text {
    match p
    case Plain(c) => [c]
    case Escaped('t') => ['\t']
    case Escaped('n') => ['\n']
    case Escaped('r') => ['\r']
    case Escaped(c) => [c]
    case InQuotes(_, text) => text
  }

  function WrittenWord(w: seq<Piece>): Text { if w == [] then [] else Written(w[0]) + WrittenWord(w[1..]) }

  function MeaningOf(w: seq<Piece>): Text { if w == [] then [] else Meaning(w[0]) + MeaningOf(w[1..]) }

  ghost predicate ProperWord(w: seq<Piece>) { w != [] && forall i :: 0 <= i < |w| ==> Proper(w[i]) }

  /** The text at `i` begins with `s`. */
  ghost predicate At(t: Text, i: nat, s: Text) { i + |s| <= |t| && t[i..i + |s|] == s }

  lemma AtSplit(t: Text, i: nat, a: Text, b: Text)
    requires At(t, i, a + b)
    ensures At(t, i, a) && At(t, i + |a|, b)
  {
    var s := t[i..i + |a + b|];
    assert t[i..i + |a|] == s[..|a|] && t[i + |a|..i + |a| + |b|] == s[|a|..];
    assert (a + b)[..|a|] == a && (a + b)[|a|..] == b;
  }

  lemma AtChar(t: Text, i: nat, c: char)
    requires At(t, i, [c])
    ensures i < |t| && t[i] == c
  {
    assert t[i..i + 1][0] == t[i];
  }

  // ---------------------------------------------------------------- one stretch

  /** Between quotes everything up to the closing quote is taken as it is. */
  lemma {:induction false} QuotedReads(t: Text, i: nat, q: char, text: Text)
    requires q !in text && At(t, i, text + [q])
    ensures Quoted(t, i, q) == (text, i + |text| + 1)
    decreases |text|
  {
    AtSplit(t, i, text, [q]);
    AtChar(t, i + |text|, q);
    if text != [] {
      assert text + [q] == [text[0]] + (text[1..] + [q]);
      AtSplit(t, i, [text[0]], text[1..] + [q]);
      AtChar(t, i, text[0]);
      QuotedReads(t, i + 1, q, text[1..]);
      assert text == [text[0]] + text[1..];
    }
  }

  /** Without a closing quote, everything up to the end of the text. */
  lemma {:induction false} UnclosedReads(t: Text, i: nat, q: char)
    requires i <= |t| && q !in t[i..]
    ensures Quoted(t, i, q) == (t[i..], |t|)
    decreases |t| - i
  {
    if i == |t| {
      assert t[i..] == [];
    } else {
      assert t[i..][0] == t[i] && t[i..] == [t[i]] + t[i + 1..];
      UnclosedReads(t, i + 1, q);
    }
  }

  lemma PlainReads(t: Text, i: nat, c: char)
    requires i < |t| && t[i] == c && Proper(Plain(c))
    ensures var rest := Word(t, i + 1); Word(t, i) == ([c] + rest.0, rest.1, rest.2)
  {
  }

  lemma EscapedReads(t: Text, i: nat, c: char)
    requires i + 1 < |t| && t[i] == '\\' && t[i + 1] == c
    ensures var rest := Word(t, i + 2); Word(t, i) == (Meaning(Escaped(c)) + rest.0, rest.1, rest.2)
  {
  }

  lemma QuoteReads(t: Text, i: nat, q: char)
    requires i < |t| && t[i] == q && Quote(q)
    ensures var text := Quoted(t, i + 1, q); var rest := Word(t, text.1);
      Word(t, i) == (text.0 + rest.0, rest.1, rest.2)
  {
    hide Quoted;
  }

  lemma PieceReads(t: Text, i: nat, p: Piece)
    requires Proper(p) && At(t, i, Written(p))
    ensures i + |Written(p)| <= |t|
    ensures var rest := Word(t, i + |Written(p)|);
      Word(t, i) == (Meaning(p) + rest.0, rest.1, rest.2)
  {
    hide Word, Quoted, At;
    AtFits(t, i, Written(p));
    match p {
      case Plain(c) =>
        AtChar(t, i, c);
        PlainReads(t, i, c);
      case Escaped(c) =>
        assert ['\\', c] == ['\\'] + [c];
        AtSplit(t, i, ['\\'], [c]);
        AtChar(t, i, '\\');
        AtChar(t, i + 1, c);
        EscapedReads(t, i, c);
      case InQuotes(q, text) =>
        assert [q] + text + [q] == [q] + (text + [q]);
        AtSplit(t, i, [q], text + [q]);
        AtChar(t, i, q);
        QuotedReads(t, i + 1, q, text);
        QuoteReads(t, i, q);
    }
  }

  lemma {:induction false} PiecesRead(t: Text, i: nat, w: seq<Piece>)
    requires (forall k :: 0 <= k < |w| ==> Proper(w[k])) && At(t, i, WrittenWord(w))
    ensures var j := i + |WrittenWord(w)|; var rest := Word(t, j);
      Word(t, i) == (MeaningOf(w) + rest.0, rest.1, rest.2)
    decreases |w|
  {
    hide Word, Written, Meaning;
    if w == [] {
      assert [] + Word(t, i).0 == Word(t, i).0;
    } else {
      var first, more := Written(w[0]), WrittenWord(w[1..]);
      AtSplit(t, i, first, more);
      PieceReads(t, i, w[0]);
      PiecesRead(t, i + |first|, w[1..]);
      var rest := Word(t, i + |first| + |more|).0;
      assert Meaning(w[0]) + (MeaningOf(w[1..]) + rest) == (Meaning(w[0]) + MeaningOf(w[1..])) + rest;
    }
  }

  /** A word ends at a blank, at the end of the line or at the end of the text. */
  lemma WordReads(t: Text, i: nat, w: seq<Piece>)
    requires ProperWord(w) && At(t, i, WrittenWord(w))
    ensures var j := i + |WrittenWord(w)|;
      && (j < |t| && (t[j] == ' ' || t[j] == '\t') ==> Word(t, i) == (MeaningOf(w), j + 1, AtBlank))
      && (j < |t| && (t[j] == '\n' || t[j] == '\r') ==> Word(t, i) == (MeaningOf(w), j + 1, AtNewline))
      && (j == |t| ==> Word(t, i) == (MeaningOf(w), j, AtEnd))
  {
    PiecesReadProper(t, i, w);
    hide Word, At, WrittenWord, MeaningOf, ProperWord;
    AtFits(t, i, WrittenWord(w));
    WordEnds(t, i + |WrittenWord(w)|);
    assert MeaningOf(w) + [] == MeaningOf(w);
  }

  lemma PiecesReadProper(t: Text, i: nat, w: seq<Piece>)
    requires ProperWord(w) && At(t, i, WrittenWord(w))
    ensures var rest := Word(t, i + |WrittenWord(w)|);
      Word(t, i) == (MeaningOf(w) + rest.0, rest.1, rest.2)
  {
    hide Word, At, WrittenWord, MeaningOf;
    PiecesRead(t, i, w);
  }

  lemma WordEnds(t: Text, j: nat)
    requires j <= |t|
    ensures j < |t| && (t[j] == ' ' || t[j] == '\t') ==> Word(t, j) == ([], j + 1, AtBlank)
    ensures j < |t| && (t[j] == '\n' || t[j] == '\r') ==> Word(t, j) == ([], j + 1, AtNewline)
    ensures j == |t| ==> Word(t, j) == ([], j, AtEnd)
  {
  }

  lemma AtFits(t: Text, i: nat, s: Text)
    requires At(t, i, s)
    ensures i + |s| <= |t|
  {
  }

  // ---------------------------------------------------------------- a whole line

  ghost predicate Blanks(s: Text) { forall i :: 0 <= i < |s| ==> s[i] == ' ' || s[i] == '\t' }

  /** A word and the blanks behind it. */
  datatype Entry = Entry(word: seq<Piece>, gap: Text)

  function WrittenEntries(es: seq<Entry>): Text {
    if es == [] then [] else WrittenWord(es[0].word) + es[0].gap + WrittenEntries(es[1..])
  }

  function Meanings(es: seq<Entry>): seq<Text> {
    if es == [] then [] else [MeaningOf(es[0].word)] + Meanings(es[1..])
  }

  /** Words are proper and stand apart; behind the last there need be no blank. */
  ghost predicate ProperEntries(es: seq<Entry>) {
    forall k :: 0 <= k < |es| ==>
      ProperWord(es[k].word) && Blanks(es[k].gap) && (k < |es| - 1 ==> es[k].gap != [])
  }

  lemma {:induction false} BlanksSkipped(t: Text, i: nat, gap: Text)
    requires Blanks(gap) && At(t, i, gap)
    ensures SkipBlanks(t, i) == SkipBlanks(t, i + |gap|)
    decreases |gap|
  {
    if gap != [] {
      assert gap == [gap[0]] + gap[1..];
      AtSplit(t, i, [gap[0]], gap[1..]);
      AtChar(t, i, gap[0]);
      BlanksSkipped(t, i + 1, gap[1..]);
    }
  }

  lemma FirstChar(p: Piece)
    requires Proper(p)
    ensures var s := Written(p); s != [] && !Blank(s[0]) && !Newline(s[0])
  {
  }

  lemma WordBegins(t: Text, i: nat, w: seq<Piece>)
    requires ProperWord(w) && At(t, i, WrittenWord(w))
    ensures i < |t| && SkipBlanks(t, i) == i && !Newline(t[i])
  {
    hide SkipBlanks, At, Written, Proper;
    assert Proper(w[0]);
    FirstChar(w[0]);
    AtSplit(t, i, Written(w[0]), WrittenWord(w[1..]));
    hide WrittenWord, ProperWord;
    var s := Written(w[0]);
    assert s == [s[0]] + s[1..];
    AtSplit(t, i, [s[0]], s[1..]);
    AtChar(t, i, s[0]);
    NoBlank(t, i);
  }

  /** From the first word on, a line reads as the meanings of its words; it ends behind the newline. */
  lemma {:induction false} EntriesRead(t: Text, i: nat, es: seq<Entry>, newline: char)
    requires ProperEntries(es) && (newline == '\n' || newline == '\r') && At(t, i, WrittenEntries(es) + [newline])
    ensures Words(t, i) == (Meanings(es), i + |WrittenEntries(es)| + 1)
    decreases |es|
  {
    hide Word, Words, SkipBlanks, WrittenWord, MeaningOf, At, ProperWord, Blanks;
    if es == [] {
      assert WrittenEntries(es) + [newline] == [newline];
      EmptyLine(t, i, newline);
    } else {
      var w, gap, more := es[0].word, es[0].gap, WrittenEntries(es[1..]) + [newline];
      assert WrittenEntries(es) + [newline] == WrittenWord(w) + (gap + more);
      AtSplit(t, i, WrittenWord(w), gap + more);
      AtSplit(t, i + |WrittenWord(w)|, gap, more);
      assert ProperWord(w) && Blanks(gap);
      assert ProperEntries(es[1..]);
      if gap == [] {
        assert es[1..] == [] && more == [newline];
        LastWord(t, i, w, newline);
        OneEntry(es);
      } else {
        EntriesRead(t, i + |WrittenWord(w)| + |gap|, es[1..], newline);
        FirstWord(t, i, w, gap);
      }
    }
  }

  lemma OneEntry(es: seq<Entry>)
    requires |es| == 1 && es[0].gap == []
    ensures WrittenEntries(es) == WrittenWord(es[0].word) && Meanings(es) == [MeaningOf(es[0].word)]
  {
    hide WrittenWord, MeaningOf;
    assert es[1..] == [];
    assert WrittenWord(es[0].word) + [] + [] == WrittenWord(es[0].word);
  }

  lemma EmptyLine(t: Text, i: nat, newline: char)
    requires Newline(newline) && At(t, i, [newline])
    ensures Words(t, i) == ([], i + 1)
  {
    hide Word, Words, SkipBlanks;
    AtChar(t, i, newline);
    NoBlank(t, i);
    WordsStep(t, i, []);
  }

  lemma LastWord(t: Text, i: nat, w: seq<Piece>, newline: char)
    requires ProperWord(w) && Newline(newline)
    requires At(t, i, WrittenWord(w)) && At(t, i + |WrittenWord(w)|, [newline])
    ensures Words(t, i) == ([MeaningOf(w)], i + |WrittenWord(w)| + 1)
  {
    hide Word, Words, SkipBlanks, WrittenWord, MeaningOf, ProperWord;
    WordBegins(t, i, w);
    WordReads(t, i, w);
    AtChar(t, i + |WrittenWord(w)|, newline);
    WordsStep(t, i, []);
  }

  lemma FirstWord(t: Text, i: nat, w: seq<Piece>, gap: Text)
    requires ProperWord(w) && gap != [] && Blanks(gap)
    requires At(t, i, WrittenWord(w)) && At(t, i + |WrittenWord(w)|, gap)
    ensures var rest := Words(t, i + |WrittenWord(w)| + |gap|);
      Words(t, i) == ([MeaningOf(w)] + rest.0, rest.1)
  {
    hide Word, Words, SkipBlanks, WrittenWord, MeaningOf, ProperWord, At, Blanks;
    var j := i + |WrittenWord(w)|;
    GapSplits(t, j, gap);
    AtFits(t, j, gap);
    WordBegins(t, i, w);
    WordReads(t, i, w);
    BlanksSkipped(t, j + 1, gap[1..]);
    SameWords(t, j + 1, j + |gap|);
    WordsStep(t, i, []);
    assert [] + Words(t, i).0 == Words(t, i).0 && [] + [MeaningOf(w)] == [MeaningOf(w)];
  }

  lemma GapSplits(t: Text, j: nat, gap: Text)
    requires gap != [] && Blanks(gap) && At(t, j, gap)
    ensures j < |t| && (t[j] == ' ' || t[j] == '\t') && At(t, j + 1, gap[1..]) && Blanks(gap[1..])
  {
    assert gap == [gap[0]] + gap[1..];
    AtSplit(t, j, [gap[0]], gap[1..]);
    AtChar(t, j, gap[0]);
  }

  lemma SameWords(t: Text, i: nat, j: nat)
    requires i <= |t| && j <= |t| && SkipBlanks(t, i) == SkipBlanks(t, j)
    ensures Words(t, i) == Words(t, j)
  {
  }

  /** Every way of writing words reads as those words: any blanks in front, between and behind, any
      mixture of plain, escaped and quoted stretches, and a word directly before the newline. */
  lemma LineReads(t: Text, i: nat, lead: Text, es: seq<Entry>, newline: char)
    requires Blanks(lead) && ProperEntries(es) && (newline == '\n' || newline == '\r')
    requires At(t, i, lead) && At(t, i + |lead|, WrittenEntries(es) + [newline])
    ensures Words(t, i) == (Meanings(es), i + |lead| + |WrittenEntries(es)| + 1)
  {
    hide Words, SkipBlanks, WrittenEntries, Meanings, At, ProperEntries, Blanks;
    EntriesRead(t, i + |lead|, es, newline);
    AtFits(t, i, lead);
    BlanksSkipped(t, i, lead);
    SameWords(t, i, i + |lead|);
  }

  /** `"a b" c` */
  lemma QuotedExample()
    ensures Words("\"a b\" c\n", 0) == (["a b", "c"], 8)
  {
    hide Words;
    var es := [Entry([InQuotes('"', "a b")], " "), Entry([Plain('c')], "")];
    ExampleText(es);
    hide WrittenEntries, Meanings;
    var t := "\"a b\" c\n";
    assert t[0..0] == [] && t[0..8] == t;
    assert "\"a b\" c" + ['\n'] == t;
    LineReads(t, 0, [], es, '\n');
  }

  lemma OnePiece(p: Piece)
    ensures WrittenWord([p]) == Written(p) && MeaningOf([p]) == Meaning(p)
  {
    hide Written, Meaning;
    assert [p][1..] == [] && Written(p) + [] == Written(p) && Meaning(p) + [] == Meaning(p);
  }

  lemma ExampleText(es: seq<Entry>)
    requires es == [Entry([InQuotes('"', "a b")], " "), Entry([Plain('c')], "")]
    ensures WrittenEntries(es) == "\"a b\" c" && Meanings(es) == ["a b", "c"]
  {
    OnePiece(InQuotes('"', "a b"));
    OnePiece(Plain('c'));
    hide WrittenWord, MeaningOf;
    var w := Written(InQuotes('"', "a b"));
    assert w == "\"a b\"" by {
      assert |w| == 5 && w[0] == '"' && w[1] == 'a' && w[2] == ' ' && w[3] == 'b' && w[4] == '"';
    }
    var tail := [Entry([Plain('c')], "")];
    OneEntry(tail);
    assert es[1..] == tail;
    assert w + " " + "c" == "\"a b\" c";
  }
}
