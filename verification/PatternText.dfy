/** The text of a pattern: how its elements are told apart, and that every pattern can be written. */
module PatternText {
  import opened Wrappers
  import opened Pattern

  // ---------------------------------------------------------------- the regular expressions

  predicate Letter(c: char) { 'a' <= c <= 'z' || 'A' <= c <= 'Z' }

  predicate Digits(text: string) { text != "" && forall i :: 0 <= i < |text| ==> Digit(text[i]) }

  /** `[01]*` */
  predicate Binary(text: string) { forall i :: 0 <= i < |text| ==> text[i] == '0' || text[i] == '1' }

  /** `[a-zA-Z][a-zA-Z0-9]*` */
  predicate Identifier(text: string) {
    text != "" && Letter(text[0]) && forall i :: 0 <= i < |text| ==> Letter(text[i]) || Digit(text[i])
  }

  /** `[0-9]\w*` */
  predicate NumberLike(text: string) {
    && text != "" && Digit(text[0])
    && forall i :: 0 <= i < |text| ==> Letter(text[i]) || Digit(text[i]) || text[i] == '_'
  }

  /** The place of the first colon. */
  function Colon(text: string): (n: nat)
    ensures n <= |text|
    ensures n < |text| ==> text[n] == ':'
    ensures forall i :: 0 <= i < n ==> text[i] != ':'
  {
    if text == "" || text[0] == ':' then 0 else 1 + Colon(text[1..])
  }

  /** The text in front of a colon and the length behind it. */
  predicate Lengthened(text: string) { Colon(text) < |text| && Digits(text[Colon(text) + 1..]) }

  function Head(text: string): string { text[..Colon(text)] }

  function LengthOf(text: string): nat
    requires Lengthened(text)
  {
    Decimal(text[Colon(text) + 1..])
  }

  /** The bits of a binary literal. */
  function BinaryBits(text: string): Bits {
    set i | 0 <= i < |text| && text[i] == '1' :: |text| - 1 - i
  }

  /** A bit field, in the order the expressions are tried. */
  function Classify(text: string): Option<Token> {
    if Binary(text) then Some(Fixed(|text|, BinaryBits(text)))
    else if Lengthened(text) && NumberLike(Head(text)) then Some(Numeral(Head(text), LengthOf(text)))
    else if Lengthened(text) && Identifier(Head(text)) then Some(Var(Head(text), LengthOf(text)))
    else if Identifier(text) then Some(Var(text, 1))
    else None
  }

  /** The order does not matter: no text matches two of the expressions. */
  lemma ClassesDisjoint(text: string)
    ensures var b, n := Binary(text), Lengthened(text) && NumberLike(Head(text));
      var v, s := Lengthened(text) && Identifier(Head(text)), Identifier(text);
      !(b && n) && !(b && v) && !(b && s) && !(n && v) && !(n && s) && !(v && s)
  {
    var c := Colon(text);
    if Lengthened(text) {
      assert text[c] == ':' && (c > 0 ==> Head(text)[0] == text[0]);
    }
  }

  // ---------------------------------------------------------------- the elements of a pattern

  const BLOCKNAMES := {"constraints", "memory", "post", "pre"}

  predicate BlockName(text: string) { text != "" && text[0] == '!' }

  predicate BlockText(text: string) { text != "" && text[0] == '{' }

  /** The elements of a pattern; a named block takes the text behind its name. */
  function Tokens(texts: seq<string>): Option<seq<Token>> {
    if texts == [] then Some([])
    else if BlockName(texts[0]) then
      if |texts| < 2 || !BlockText(texts[1]) then None
      else Prepend(Block(texts[0][1..] in BLOCKNAMES), Tokens(texts[2..]))
    else if BlockText(texts[0]) then Prepend(Block(true), Tokens(texts[1..]))
    else
      var t := Classify(texts[0]);
      if t.None? then None else Prepend(t.value, Tokens(texts[1..]))
  }

  function Prepend(t: Token, more: Option<seq<Token>>): Option<seq<Token>> {
    if more.None? then None else Some([t] + more.value)
  }

  /** What is read so far, in front of what is left. */
  function Joined(done: seq<Token>, more: Option<seq<Token>>): Option<seq<Token>> {
    if more.None? then None else Some(done + more.value)
  }

  lemma JoinedStep(done: seq<Token>, t: Token, more: Option<seq<Token>>)
    ensures Joined(done, Prepend(t, more)) == Joined(done + [t], more)
  {
    if more.Some? {
      assert done + ([t] + more.value) == (done + [t]) + more.value;
    }
  }

  /** Tell the elements apart, text by text. */
  method ReadTokens(texts: seq<string>) returns (r: Option<seq<Token>>)
    ensures r == Tokens(texts)
  {
    hide Classify;
    var done: seq<Token> := [];
    var i := 0;
    assert texts[0..] == texts;
    assert Tokens(texts).Some? ==> [] + Tokens(texts).value == Tokens(texts).value;
    while i < |texts|
      invariant i <= |texts| && Tokens(texts) == Joined(done, Tokens(texts[i..]))
    {
      var text := texts[i];
      if BlockName(text) {
        if i + 1 == |texts| || !BlockText(texts[i + 1]) {
          return None;
        }
        var t := Block(text[1..] in BLOCKNAMES);
        assert texts[i..][2..] == texts[i + 2..];
        JoinedStep(done, t, Tokens(texts[i + 2..]));
        done, i := done + [t], i + 2;
      } else {
        var t := if BlockText(text) then Some(Block(true)) else Classify(text);
        if t.None? {
          return None;
        }
        assert texts[i..][1..] == texts[i + 1..];
        JoinedStep(done, t.value, Tokens(texts[i + 1..]));
        done, i := done + [t.value], i + 1;
      }
    }
    assert texts[i..] == [] && done + [] == done;
    return Some(done);
  }

  /** From text to the compiled pattern: exactly the texts whose elements make an accepted pattern
      are compiled. */
  method ParseText(texts: seq<string>) returns (r: Option<Compiled>, ghost n: nat)
    ensures r.Some? ==>
      Tokens(texts).Some? && Accepts(Tokens(texts).value, n) && r.value == Raised(AppendAll(Tokens(texts).value[..n]))
    ensures r.None? ==> Tokens(texts).None? || forall m: nat :: !Accepts(Tokens(texts).value, m)
  {
    hide Tokens, Accepts, AppendAll, Raised;
    n := 0;
    var ts := ReadTokens(texts);
    if ts.None? {
      return None, n;
    }
    var p;
    p, n := Parse(ts.value);
    r := if p.Pattern? then Some(p.value) else None;
    assert p.Pattern? ==> Accepts(ts.value, n);
  }

  // ---------------------------------------------------------------- writing patterns

  function DecimalText(n: nat): (s: string)
    ensures Digits(s)
  {
    var last := [('0' as int + n % 10) as char];
    if n < 10 then last else DecimalText(n / 10) + last
  }

  lemma {:induction false} DecimalBack(n: nat)
    ensures Decimal(DecimalText(n)) == n
  {
    var s := DecimalText(n);
    if n < 10 {
      assert s[..0] == "";
    } else {
      DecimalBack(n / 10);
      assert s[..|s| - 1] == DecimalText(n / 10);
    }
  }

  function BinaryText(len: nat, value: Bits): (s: string)
    ensures |s| == len
  {
    seq(len, i requires 0 <= i < len => if len - 1 - i in value then '1' else '0')
  }

  lemma BinaryBack(len: nat, value: Bits)
    requires value <= Mask(len)
    ensures Binary(BinaryText(len, value)) && BinaryBits(BinaryText(len, value)) == value
  {
    var s := BinaryText(len, value);
    forall b: nat ensures b in BinaryBits(s) <==> b in value {
      if b < len {
        var i := len - 1 - b;
        assert s[i] == (if b in value then '1' else '0') && len - 1 - i == b;
      } else {
        assert b !in Mask(len);
      }
    }
  }

  /** An element that can be written. */
  ghost predicate Writable(t: Token) {
    match t
    case Fixed(len, value) => value <= Mask(len)
    case Var(name, _) => Identifier(name)
    case Block(known) => known
  }

  function Spelled(t: Token): string {
    match t
    case Fixed(len, value) => BinaryText(len, value)
    case Var(name, len) => name + ":" + DecimalText(len)
    case Block(_) => "{}"
  }

  function SpelledAll(ts: seq<Token>): seq<string> {
    if ts == [] then [] else [Spelled(ts[0])] + SpelledAll(ts[1..])
  }

  lemma FirstColon(head: string, rest: string)
    requires forall i :: 0 <= i < |head| ==> head[i] != ':'
    ensures Colon(head + ":" + rest) == |head|
  {
    var s := head + ":" + rest;
    hide Colon;
    assert s[|head|] == ':';
    assert forall i :: 0 <= i < |head| ==> s[i] == head[i];
  }

  lemma VarBack(name: string, len: nat)
    requires Identifier(name)
    ensures var s := name + ":" + DecimalText(len);
      Classify(s) == Some(Var(name, len)) && !BlockName(s) && !BlockText(s)
  {
    hide DecimalText, Decimal, Colon, Numeral, BinaryBits;
    var s := name + ":" + DecimalText(len);
    FirstColon(name, DecimalText(len));
    DecimalBack(len);
    assert s[..|name|] == name && s[|name| + 1..] == DecimalText(len) && s[0] == name[0];
    assert s[|name|] == ':';
  }

  lemma FixedBack(len: nat, value: Bits)
    requires value <= Mask(len)
    ensures var s := BinaryText(len, value);
      Classify(s) == Some(Fixed(len, value)) && !BlockName(s) && !BlockText(s)
  {
    hide BinaryText, BinaryBits, Mask;
    BinaryBack(len, value);
  }

  /** Every pattern of writable elements has a text that reads back as it. */
  lemma {:induction false} SpelledReads(ts: seq<Token>)
    requires forall k :: 0 <= k < |ts| ==> Writable(ts[k])
    ensures Tokens(SpelledAll(ts)) == Some(ts)
  {
    hide Classify, BinaryText, DecimalText, Mask;
    if ts != [] {
      SpelledReads(ts[1..]);
      var texts := SpelledAll(ts);
      assert texts[1..] == SpelledAll(ts[1..]);
      match ts[0] {
        case Fixed(len, value) => FixedBack(len, value);
        case Var(name, len) => VarBack(name, len);
        case Block(_) => assert BlockText("{}") && !BlockName("{}");
      }
      assert [ts[0]] + ts[1..] == ts;
    }
  }

  // ---------------------------------------------------------------- every way to write a pattern

  /** The ways to write an element: bits in binary, or a number and a length; a name and a length, or
      a name alone for one bit; a block by itself or behind its name, which must be one of four. */
  ghost predicate Spells(texts: seq<string>, t: Token) {
    match t
    case Fixed(len, value) =>
      || (value <= Mask(len) && texts == [BinaryText(len, value)])
      || exists n: nat :: value == BitsOf(n) && texts == [DecimalText(n) + ":" + DecimalText(len)]
    case Var(name, len) =>
      Identifier(name) && (texts == [name + ":" + DecimalText(len)] || (len == 1 && texts == [name]))
    case Block(known) =>
      || (known && |texts| == 1 && "{" <= texts[0])
      || (|texts| == 2 && "!" <= texts[0] && "{" <= texts[1]
          && (known <==> texts[0] in ["!constraints", "!memory", "!pre", "!post"]))
  }

  lemma AllDigits(text: string)
    requires Digits(text)
    ensures DigitsOf(text) == |text|
  {
    hide DigitsOf;
  }

  lemma {:induction false} PerlDecimal(n: nat)
    ensures PerlNumber(DecimalText(n)) == n
  {
    hide DecimalText, Decimal, DigitsOf;
    var text := DecimalText(n);
    AllDigits(text);
    DecimalBack(n);
    assert text[..|text|] == text;
  }

  lemma NumeralBack(n: nat, len: nat)
    ensures var s := DecimalText(n) + ":" + DecimalText(len);
      Classify(s) == Some(Fixed(len, BitsOf(n))) && !BlockName(s) && !BlockText(s)
  {
    hide DecimalText, Decimal, Colon, BinaryBits, PerlNumber, BitsOf;
    var head := DecimalText(n);
    var s := head + ":" + DecimalText(len);
    FirstColon(head, DecimalText(len));
    DecimalBack(len);
    PerlDecimal(n);
    assert s[..|head|] == head && s[|head| + 1..] == DecimalText(len) && s[0] == head[0];
    assert s[|head|] == ':';
  }

  lemma BareBack(name: string)
    requires Identifier(name)
    ensures Classify(name) == Some(Var(name, 1)) && !BlockName(name) && !BlockText(name)
  {
    hide Decimal, Numeral, BinaryBits;
    assert forall i :: 0 <= i < |name| ==> name[i] != ':';
  }

  lemma FourNames(text: string)
    requires "!" <= text
    ensures text[1..] in BLOCKNAMES <==> text in ["!constraints", "!memory", "!pre", "!post"]
  {
    assert "!constraints" == "!" + "constraints" && "!memory" == "!" + "memory";
    assert "!post" == "!" + "post" && "!pre" == "!" + "pre";
    assert text == "!" + text[1..];
    assert "!constraints"[1..] == "constraints" && "!memory"[1..] == "memory";
    assert "!post"[1..] == "post" && "!pre"[1..] == "pre";
  }

  lemma FirstReads(texts: seq<string>, t: Token, more: seq<string>)
    requires Spells(texts, t)
    ensures Tokens(texts + more) == Prepend(t, Tokens(more))
  {
    hide Classify, BinaryText, DecimalText, Mask, BitsOf, Identifier;
    if |texts| == 1 {
      assert (texts + more)[1..] == more;
    } else {
      assert (texts + more)[2..] == more;
    }
    match t {
      case Fixed(len, value) =>
        if value <= Mask(len) {
          FixedBack(len, value);
        }
        if n: nat :| value == BitsOf(n) && texts == [DecimalText(n) + ":" + DecimalText(len)] {
          NumeralBack(n, len);
        }
      case Var(name, len) =>
        VarBack(name, len);
        BareBack(name);
      case Block(known) =>
        if |texts| == 2 {
          FourNames(texts[0]);
        }
    }
  }

  function Flat(parts: seq<seq<string>>): seq<string> { if parts == [] then [] else parts[0] + Flat(parts[1..]) }

  /** However its elements are written, a pattern reads back as them. */
  lemma {:induction false} EverySpellingReads(parts: seq<seq<string>>, ts: seq<Token>)
    requires |parts| == |ts| && forall k :: 0 <= k < |ts| ==> Spells(parts[k], ts[k])
    ensures Tokens(Flat(parts)) == Some(ts)
  {
    hide Tokens, Spells;
    if ts == [] {
      NoTokens();
    } else {
      EverySpellingReads(parts[1..], ts[1..]);
      FirstReads(parts[0], ts[0], Flat(parts[1..]));
      assert [ts[0]] + ts[1..] == ts;
    }
  }

  lemma NoTokens()
    ensures Tokens([]) == Some([])
  {
  }
}
