/** What a command line means: options written in every form that is accepted, and wrongly, with
    operands between them; and that the parser reports exactly what was written. */
module CommandLine {
  import opened Wrappers
  import opened Options
  import Getopt
  import GetoptScanner

  // ---------------------------------------------------------------- the option letters

  /** What the option letters say about a character: it is the first of its kind among them, and the
      colons behind it count. */
  ghost predicate Says(short: string, c: char, w: Wants) {
    if w.Illegal? then c == ':' || c !in short
    else
      && c != ':'
      && exists pre, post :: short == pre + [c] + post && c !in pre && w == Colons(post)
  }

  function Colons(post: string): Wants {
    if |post| >= 2 && post[0] == ':' && post[1] == ':' then Optionally
    else if |post| >= 1 && post[0] == ':' then Required
    else Nothing
  }

  lemma SaysDemand(short: string, c: char, w: Wants)
    requires Says(short, c, w)
    ensures Demand(short, c) == w
  {
    if w.Illegal? {
      if c !in short {
        assert IndexOf(short, c) == |short|;
      }
    } else {
      var pre, post :| short == pre + [c] + post && c !in pre && w == Colons(post);
      FirstPlace(pre, c, post);
    }
  }

  lemma FirstPlace(pre: string, c: char, post: string)
    requires c !in pre
    ensures var s := pre + [c] + post;
      && IndexOf(s, c) == |pre|
      && At(s, |pre| + 1) == At(post, 0) && At(s, |pre| + 2) == At(post, 1)
  {
    hide IndexOf;
    var s := pre + [c] + post;
    assert s[|pre|] == c;
    assert forall i :: 0 <= i < |pre| ==> s[i] == pre[i];
  }

  // ---------------------------------------------------------------- items

  /** How a cluster of letters ends: in letters that take nothing, or in one with its argument in the
      same element, in the next, or, if it may do without, with none. */
  datatype Ending = Plain | Joined(c: char, value: string) | Apart(c: char, value: string) | Without(c: char)

  /** An item of a command line. */
  datatype Item =
    | LongEq(name: string, value: string, i: nat)       // --name=value
    | LongNext(name: string, value: string, i: nat)     // --name value
    | LongAlone(name: string, i: nat)                   // --name
    | LongRefused(name: string, value: string, i: nat)  // --name=value for an option without argument
    | LongWrong(name: string, tail: string)             // a name that stands for no option
    | Shorts(flags: string, end: Ending)                // -abc
    | Operand(text: string)

  function ShortText(flags: string, end: Ending): string {
    match end
    case Plain => flags
    case Joined(c, value) => flags + [c] + value
    case Apart(c, _) => flags + [c]
    case Without(c) => flags + [c]
  }

  function Elements(it: Item): (es: seq<string>)
    ensures 1 <= |es| <= 2
  {
    match it
    case LongEq(name, value, _) => ["--" + (name + ("=" + value))]
    case LongNext(name, value, _) => ["--" + name, value]
    case LongAlone(name, _) => ["--" + name]
    case LongRefused(name, value, _) => ["--" + (name + ("=" + value))]
    case LongWrong(name, tail) => ["--" + (name + tail)]
    case Shorts(flags, end) => ["-" + ShortText(flags, end)] + if end.Apart? then [end.value] else []
    case Operand(text) => [text]
  }

  /** The name stands for option `i` and does not contain what would end it. */
  ghost predicate Stands(t: Table, name: string, i: nat) {
    t.long.Some? && i < |t.long.value| && Names(t.long.value, name, Unique(i)) && '=' !in name
  }

  ghost predicate ProperEnd(short: string, end: Ending) {
    match end
    case Plain => true
    case Joined(c, value) => value != "" && (Says(short, c, Required) || Says(short, c, Optionally))
    case Apart(c, _) => Says(short, c, Required)
    case Without(c) => Says(short, c, Optionally)
  }

  /** An item that is written properly for the options of the program. */
  ghost predicate Proper(t: Table, it: Item) {
    match it
    case LongEq(name, _, i) => Stands(t, name, i) && !t.long.value[i].hasArg.NoArgument?
    case LongNext(name, _, i) => Stands(t, name, i) && name != "" && t.long.value[i].hasArg.RequiredArgument?
    case LongAlone(name, i) => Stands(t, name, i) && name != "" && !t.long.value[i].hasArg.RequiredArgument?
    case LongRefused(name, _, i) => Stands(t, name, i) && t.long.value[i].hasArg.NoArgument?
    case LongWrong(name, tail) =>
      && t.long.Some? && '=' !in name && name + tail != "" && (tail == "" || tail[0] == '=')
      && (Names(t.long.value, name, Unknown) || Names(t.long.value, name, Ambiguous))
    case Shorts(flags, end) =>
      && ShortText(flags, end) != "" && ShortText(flags, end) != "-"
      && (t.long.Some? ==> ShortText(flags, end)[0] != '-')
      && (forall k :: 0 <= k < |flags| ==> Says(t.short, flags[k], Nothing) || Says(t.short, flags[k], Illegal))
      && ProperEnd(t.short, end)
    case Operand(text) => NonOption(text)
  }

  /** A long option is reported by its value, or by 0 if it sets a flag, with its place in the table. */
  function LongEvent(t: Table, i: nat, arg: Option<string>): Event
    requires t.long.Some? && i < |t.long.value|
  {
    var o := t.long.value[i];
    Event(if o.flag then 0 else o.val, arg, Some(i))
  }

  const REFUSED := Event(0, None, None)

  ghost function FlagEvents(short: string, flags: string): seq<Event> {
    if flags == "" then []
    else
      [if Says(short, flags[0], Illegal) then REFUSED else Event(flags[0] as int, None, None)]
      + FlagEvents(short, flags[1..])
  }

  function EndEvents(end: Ending): seq<Event> {
    match end
    case Plain => []
    case Joined(c, value) => [Event(c as int, Some(value), None)]
    case Apart(c, value) => [Event(c as int, Some(value), None)]
    case Without(c) => [Event(c as int, None, None)]
  }

  /** What is to be reported of an item. */
  ghost function Reports(t: Table, ord: Ordering, it: Item): seq<Event>
    requires Proper(t, it)
  {
    match it
    case LongEq(_, value, i) => [LongEvent(t, i, Some(value))]
    case LongNext(_, value, i) => [LongEvent(t, i, Some(value))]
    case LongAlone(_, i) => [LongEvent(t, i, None)]
    case LongRefused(_, _, _) => [REFUSED]
    case LongWrong(_, _) => [REFUSED]
    case Shorts(flags, end) => FlagEvents(t.short, flags) + EndEvents(end)
    case Operand(text) => if ord.ReturnInOrder? then [Event(1, Some(text), None)] else []
  }

  // ---------------------------------------------------------------- one long option

  lemma NamesOnce(opts: seq<LongOption>, name: string, f: Found, g: Found)
    requires Names(opts, name, f) && Names(opts, name, g)
    ensures f == g
  {
    if i :| 0 <= i < |opts| && Exact(opts, name, i) {
      assert !(f.i < g.i) && !(g.i < f.i);
    }
  }

  lemma LookupIs(opts: seq<LongOption>, name: string, f: Found)
    requires Names(opts, name, f)
    ensures Lookup(opts, name) == f
  {
    hide Names, Lookup;
    LookupNames(opts, name);
    NamesOnce(opts, name, f, Lookup(opts, name));
  }

  lemma NameEnds(name: string, tail: string)
    requires '=' !in name && (tail == "" || tail[0] == '=')
    ensures IndexOf(name + tail, '=') == |name| && (name + tail)[..|name|] == name
  {
    hide IndexOf;
    var s := name + tail;
    assert forall i :: 0 <= i < |name| ==> s[i] == name[i];
    assert tail != "" ==> s[|name|] == '=';
  }

  /** A long option by itself, in all its forms. */
  lemma LongReads(t: Table, name: string, tail: string, i: nat, hasNext: bool)
    requires Stands(t, name, i) && (tail == "" || tail[0] == '=')
    ensures var o := t.long.value[i]; var code := if o.flag then 0 else o.val;
      ReadLong(t.short, t.long.value, name + tail, hasNext) ==
        if tail != "" then
          if o.hasArg.NoArgument? then Reading(BAD_OPTION, NoArg, "", 1, None)
          else Reading(code, Inline(tail[1..]), "", 1, Some(i))
        else if !o.hasArg.RequiredArgument? then Reading(code, NoArg, "", 1, Some(i))
        else if hasNext then Reading(code, NextElement, "", 2, Some(i))
        else Reading(if |t.short| > 0 && t.short[0] == ':' then ':' as int else BAD_OPTION, NoArg, "", 1, None)
  {
    hide Lookup, Names, IndexOf;
    LookupIs(t.long.value, name, Unique(i));
    NameEnds(name, tail);
    assert tail != "" ==> (name + tail)[|name| + 1..] == tail[1..];
  }

  lemma WrongReads(t: Table, name: string, tail: string, hasNext: bool)
    requires Proper(t, LongWrong(name, tail))
    ensures ReadLong(t.short, t.long.value, name + tail, hasNext) == Reading(BAD_OPTION, NoArg, "", 1, None)
  {
    hide Lookup, IndexOf, Names;
    NameEnds(name, tail);
    if Names(t.long.value, name, Unknown) {
      LookupIs(t.long.value, name, Unknown);
    } else {
      LookupIs(t.long.value, name, Ambiguous);
    }
  }

  lemma {:induction false} OneReading(t: Table, rest: seq<string>, text: string)
    requires rest != [] && !NonOption(rest[0]) && (IsLong(t, rest[0]) || text != "")
    ensures var r := ReadOption(t, rest[0], text, |rest| > 1);
      ReadElement(t, rest, text) ==
        if r.advance > 0 then ([EventOf(r, rest)], r.advance)
        else ([EventOf(r, rest)] + ReadElement(t, rest, r.rest).0, ReadElement(t, rest, r.rest).1)
  {
  }

  ghost predicate IsLongItem(it: Item) { !it.Shorts? && !it.Operand? }

  function LongTail(it: Item): string {
    match it
    case LongEq(_, value, _) => "=" + value
    case LongRefused(_, value, _) => "=" + value
    case LongWrong(_, tail) => tail
    case _ => ""
  }

  function LongName(it: Item): string {
    match it
    case LongEq(name, _, _) => name
    case LongNext(name, _, _) => name
    case LongAlone(name, _) => name
    case LongRefused(name, _, _) => name
    case LongWrong(name, _) => name
    case _ => ""
  }

  /** The element of a long item. */
  lemma LongElement(t: Table, it: Item)
    requires Proper(t, it) && IsLongItem(it)
    ensures var e := Elements(it)[0];
      && !NonOption(e) && e != "--" && IsLong(t, e) && TextOf(t, e) == LongName(it) + LongTail(it)
      && (LongTail(it) == "" || LongTail(it)[0] == '=')
  {
    hide Names;
    var text := LongName(it) + LongTail(it);
    assert LongName(it) + "" == LongName(it);
    assert Elements(it)[0] == "--" + text && text != "";
    DashDash(t, text);
  }

  lemma DashDash(t: Table, text: string)
    requires text != "" && t.long.Some?
    ensures var e := "--" + text; !NonOption(e) && e != "--" && IsLong(t, e) && TextOf(t, e) == text
  {
    var e := "--" + text;
    assert |e| >= 3 && e[0] == '-' && e[1] == '-' && e[2..] == text;
  }

  lemma LongItemReads(t: Table, ord: Ordering, it: Item, more: seq<string>)
    requires Proper(t, it) && IsLongItem(it)
    ensures var rest := Elements(it) + more;
      && !NonOption(rest[0]) && rest[0] != "--" && IsLong(t, rest[0])
      && ReadElement(t, rest, TextOf(t, rest[0])) == (Reports(t, ord, it), |Elements(it)|)
  {
    hide ReadElement, ReadLong, Names;
    var rest := Elements(it) + more;
    LongElement(t, it);
    OneReading(t, rest, TextOf(t, rest[0]));
    if it.LongWrong? {
      WrongReads(t, it.name, it.tail, |rest| > 1);
    } else {
      LongReads(t, LongName(it), LongTail(it), it.i, |rest| > 1);
      assert it.LongEq? ==> LongTail(it)[1..] == it.value;
      assert it.LongNext? ==> rest[1] == it.value;
    }
  }

  // ---------------------------------------------------------------- one cluster of letters

  lemma ShortSplits(flags: string, end: Ending)
    requires flags != ""
    ensures ShortText(flags, end) == [flags[0]] + ShortText(flags[1..], end)
  {
    assert flags == [flags[0]] + flags[1..];
  }

  lemma FlagReads(short: string, c: char, more: string, hasNext: bool)
    requires Says(short, c, Nothing) || Says(short, c, Illegal)
    ensures var code := if Says(short, c, Illegal) then BAD_OPTION else c as int;
      ReadShort(short, [c] + more, hasNext) == Reading(code, NoArg, more, if more == "" then 1 else 0, None)
  {
    hide Says, Demand;
    if Says(short, c, Illegal) {
      SaysDemand(short, c, Illegal);
    } else {
      SaysDemand(short, c, Nothing);
    }
    assert ([c] + more)[1..] == more;
  }

  function EndLetter(end: Ending): char
    requires !end.Plain?
  {
    match end case Joined(c, _) => c case Apart(c, _) => c case Without(c) => c
  }

  lemma EndReads(short: string, end: Ending, hasNext: bool)
    requires ProperEnd(short, end) && !end.Plain? && (end.Apart? ==> hasNext)
    ensures ReadShort(short, ShortText("", end), hasNext) ==
      var code := EndLetter(end) as int;
      if end.Joined? then Reading(code, Inline(end.value), "", 1, None)
      else if end.Apart? then Reading(code, NextElement, "", 2, None)
      else Reading(code, NoArg, "", 1, None)
  {
    hide Says, Demand;
    var c := EndLetter(end);
    if Says(short, c, Required) {
      SaysDemand(short, c, Required);
    }
    if Says(short, c, Optionally) {
      SaysDemand(short, c, Optionally);
    }
    var text := ShortText("", end);
    assert text[0] == c && text[1..] == if end.Joined? then end.value else "";
  }

  lemma {:induction false} ShortsRead(t: Table, rest: seq<string>, flags: string, end: Ending)
    requires rest != [] && !NonOption(rest[0]) && !IsLong(t, rest[0]) && ShortText(flags, end) != ""
    requires forall k :: 0 <= k < |flags| ==> Says(t.short, flags[k], Nothing) || Says(t.short, flags[k], Illegal)
    requires ProperEnd(t.short, end) && (end.Apart? ==> |rest| >= 2 && rest[1] == end.value)
    ensures ReadElement(t, rest, ShortText(flags, end)) ==
      (FlagEvents(t.short, flags) + EndEvents(end), if end.Apart? then 2 else 1)
    decreases |flags|
  {
    hide ReadElement, ReadShort, Says, NonOption, IsLong;
    OneReading(t, rest, ShortText(flags, end));
    if flags == "" {
      EndReads(t.short, end, |rest| > 1);
      assert [] + EndEvents(end) == EndEvents(end);
    } else {
      var c, more := flags[0], ShortText(flags[1..], end);
      ShortSplits(flags, end);
      FlagReads(t.short, c, more, |rest| > 1);
      var e := FlagEvents(t.short, flags)[0];
      var others := FlagEvents(t.short, flags[1..]);
      if more == "" {
        assert flags[1..] == "" && end.Plain?;
        assert [e] + [] + [] == [e];
      } else {
        ShortsRead(t, rest, flags[1..], end);
        assert [e] + (others + EndEvents(end)) == ([e] + others) + EndEvents(end);
      }
    }
  }

  lemma ShortItemReads(t: Table, ord: Ordering, it: Item, more: seq<string>)
    requires Proper(t, it) && it.Shorts?
    ensures var rest := Elements(it) + more;
      && !NonOption(rest[0]) && rest[0] != "--" && !IsLong(t, rest[0]) && TextOf(t, rest[0]) != ""
      && ReadElement(t, rest, TextOf(t, rest[0])) == (Reports(t, ord, it), |Elements(it)|)
  {
    hide ReadElement, Says;
    var rest, text := Elements(it) + more, ShortText(it.flags, it.end);
    assert rest[0] == "-" + text && rest[0][1..] == text && rest[0][1] == text[0];
    assert rest[0] == "--" ==> text == "-";
    ShortsRead(t, rest, it.flags, it.end);
  }

  // ---------------------------------------------------------------- a whole command line

  /** Nothing but operands is left for the caller, and not even those in order. */
  predicate Takes(ord: Ordering, it: Item) { !it.Operand? || ord.ReturnInOrder? }

  function AllElements(its: seq<Item>): seq<string> {
    if its == [] then [] else Elements(its[0]) + AllElements(its[1..])
  }

  function TakenElements(ord: Ordering, its: seq<Item>): seq<string> {
    if its == [] then [] else (if Takes(ord, its[0]) then Elements(its[0]) else []) + TakenElements(ord, its[1..])
  }

  function LeftElements(ord: Ordering, its: seq<Item>): seq<string> {
    if its == [] then [] else (if Takes(ord, its[0]) then [] else Elements(its[0])) + LeftElements(ord, its[1..])
  }

  ghost predicate AllProper(t: Table, its: seq<Item>) { forall k :: 0 <= k < |its| ==> Proper(t, its[k]) }

  ghost function AllReports(t: Table, ord: Ordering, its: seq<Item>): seq<Event>
    requires AllProper(t, its)
  {
    if its == [] then [] else Reports(t, ord, its[0]) + AllReports(t, ord, its[1..])
  }

  /** What may stand behind the items: nothing, "--" and anything, or under REQUIRE_ORDER a non-option
      and anything. */
  predicate Behind(ord: Ordering, tail: seq<string>) {
    tail == [] || tail[0] == "--" || (ord.RequireOrder? && NonOption(tail[0]))
  }

  function Dashes(tail: seq<string>): seq<string> { if tail != [] && tail[0] == "--" then ["--"] else [] }

  function Beyond(tail: seq<string>): seq<string> { if tail != [] && tail[0] == "--" then tail[1..] else tail }

  lemma TailReads(t: Table, ord: Ordering, tail: seq<string>)
    requires Behind(ord, tail)
    ensures Partition(t, ord, tail) == (Dashes(tail), Beyond(tail)) && Events(t, ord, tail) == []
  {
    assert !NonOption("--");
  }

  /** One turn of the partition and of the events. */
  lemma ItemTurn(t: Table, ord: Ordering, it: Item, more: seq<string>)
    requires Proper(t, it) && (ord.RequireOrder? ==> !it.Operand?)
    ensures var rest := Elements(it) + more; var (o, n) := Partition(t, ord, more);
      && Partition(t, ord, rest) == (if Takes(ord, it) then (Elements(it) + o, n) else (o, Elements(it) + n))
      && Events(t, ord, rest) == Reports(t, ord, it) + Events(t, ord, more)
  {
    var rest := Elements(it) + more;
    if it.Operand? {
      OperandTurn(t, ord, it, more);
    } else {
      if it.Shorts? {
        ShortItemReads(t, ord, it, more);
      } else {
        LongItemReads(t, ord, it, more);
      }
      OptionTurn(t, ord, rest, |Elements(it)|, Reports(t, ord, it), more);
      assert rest[..|Elements(it)|] == Elements(it);
    }
  }

  lemma OperandTurn(t: Table, ord: Ordering, it: Item, more: seq<string>)
    requires it.Operand? && NonOption(it.text) && !ord.RequireOrder?
    ensures var rest := Elements(it) + more; var (o, n) := Partition(t, ord, more);
      && Partition(t, ord, rest) == (if Takes(ord, it) then (Elements(it) + o, n) else (o, Elements(it) + n))
      && Events(t, ord, rest) == Reports(t, ord, it) + Events(t, ord, more)
  {
    hide ReadElement;
    var rest := Elements(it) + more;
    assert rest[0] == it.text && rest[1..] == more && rest[0] != "--";
    assert [] + Events(t, ord, more) == Events(t, ord, more);
  }

  lemma OptionTurn(t: Table, ord: Ordering, rest: seq<string>, k: nat, es: seq<Event>, more: seq<string>)
    requires rest != [] && !NonOption(rest[0]) && rest[0] != "--" && (IsLong(t, rest[0]) || TextOf(t, rest[0]) != "")
    requires ReadElement(t, rest, TextOf(t, rest[0])) == (es, k) && rest[k..] == more
    ensures var (o, n) := Partition(t, ord, more);
      Partition(t, ord, rest) == (rest[..k] + o, n) && Events(t, ord, rest) == es + Events(t, ord, more)
  {
    hide ReadElement, IsLong, TextOf;
  }

  /** The parser takes exactly the options with their arguments and leaves exactly the operands, each
      in order, and reports exactly what was written, in all three orderings. */
  lemma {:induction false} CommandLineReads(t: Table, ord: Ordering, its: seq<Item>, tail: seq<string>)
    requires AllProper(t, its) && Behind(ord, tail)
    requires ord.RequireOrder? ==> forall k :: 0 <= k < |its| ==> !its[k].Operand?
    ensures var rest := AllElements(its) + tail;
      && Partition(t, ord, rest) ==
           (TakenElements(ord, its) + Dashes(tail), LeftElements(ord, its) + Beyond(tail))
      && Events(t, ord, rest) == AllReports(t, ord, its)
    decreases |its|
  {
    hide Partition, Events, Proper, Reports, Elements;
    if its == [] {
      TailReads(t, ord, tail);
      assert [] + tail == tail && [] + Dashes(tail) == Dashes(tail) && [] + Beyond(tail) == Beyond(tail);
    } else {
      var it, more := its[0], AllElements(its[1..]) + tail;
      assert AllElements(its) + tail == Elements(it) + more;
      assert AllProper(t, its[1..]);
      CommandLineReads(t, ord, its[1..], tail);
      assert Proper(t, it);
      ItemTurn(t, ord, it, more);
      TurnJoins(ord, its, tail);
    }
  }

  /** A whole run of the scanner over such a command line ends with the two parts and has reported
      all of it. */
  lemma RunReads(t: Table, ord: Ordering, its: seq<Item>, tail: seq<string>)
    requires AllProper(t, its) && Behind(ord, tail)
    requires ord.RequireOrder? ==> forall k :: 0 <= k < |its| ==> !its[k].Operand?
    ensures Getopt.Whole(t, t, ord, AllElements(its) + tail) ==
      (TakenElements(ord, its) + Dashes(tail), LeftElements(ord, its) + Beyond(tail), AllReports(t, ord, its))
  {
    hide Partition, Events, Getopt.Whole, Proper;
    CommandLineReads(t, ord, its, tail);
    Getopt.WholeIsPartition(t, ord, AllElements(its) + tail);
  }

  lemma TurnJoins(ord: Ordering, its: seq<Item>, tail: seq<string>)
    requires its != []
    ensures var e := Elements(its[0]);
      var o, n := TakenElements(ord, its[1..]) + Dashes(tail), LeftElements(ord, its[1..]) + Beyond(tail);
      (TakenElements(ord, its) + Dashes(tail), LeftElements(ord, its) + Beyond(tail)) ==
        if Takes(ord, its[0]) then (e + o, n) else (o, e + n)
  {
    hide Elements, Dashes, Beyond;
    var e := Elements(its[0]);
    var o, n := TakenElements(ord, its[1..]), LeftElements(ord, its[1..]);
    Assoc(e, o, Dashes(tail));
    Assoc(e, n, Beyond(tail));
    assert [] + o == o && [] + n == n;
  }

  lemma Assoc(a: seq<string>, b: seq<string>, c: seq<string>)
    ensures a + (b + c) == (a + b) + c
  {
  }

  // ---------------------------------------------------------------- missing arguments

  /** At the end of the command line a missing argument is reported by a colon if the letters begin
      with one, and as a bad option otherwise. */
  function Missing(short: string): Event {
    Event(if |short| > 0 && short[0] == ':' then ':' as int else 0, None, None)
  }

  lemma MissingLong(t: Table, ord: Ordering, name: string, i: nat)
    requires Stands(t, name, i) && name != "" && t.long.value[i].hasArg.RequiredArgument?
    ensures Events(t, ord, ["--" + name]) == [Missing(t.short)]
    ensures Partition(t, ord, ["--" + name]) == (["--" + name], [])
  {
    hide ReadLong, ReadElement, Names;
    var e := "--" + name;
    var rest := [e];
    assert |e| >= 3 && e[2..] == name && name + "" == name;
    LongReads(t, name, "", i, false);
    OneReading(t, rest, name);
    OptionTurn(t, ord, rest, 1, [Missing(t.short)], []);
    assert rest[..1] + [] == rest && [Missing(t.short)] + [] == [Missing(t.short)];
  }

  lemma MissingShort(t: Table, ord: Ordering, c: char)
    requires Says(t.short, c, Required) && c != '-'
    ensures Events(t, ord, [['-', c]]) == [Missing(t.short)] && Partition(t, ord, [['-', c]]) == ([['-', c]], [])
  {
    hide ReadElement, Says, Demand;
    SaysDemand(t.short, c, Required);
    var e := ['-', c];
    var rest := [e];
    assert e[1..] == [c] && !IsLong(t, e) && e != "--";
    OneReading(t, rest, [c]);
    OptionTurn(t, ord, rest, 1, [Missing(t.short)], []);
    assert rest[..1] + [] == rest && [Missing(t.short)] + [] == [Missing(t.short)];
  }

  // ---------------------------------------------------------------- the orderings

  predicate Begins(s: string, c: char) { |s| > 0 && s[0] == c }

  lemma OneFlag(t: Table, ord: Ordering, c: char)
    requires Says(t.short, c, Nothing) && c != '-'
    ensures Partition(t, ord, [['-', c]]) == ([['-', c]], [])
    ensures Events(t, ord, [['-', c]]) == [Event(c as int, None, None)]
  {
    hide Partition, Events, Says;
    var it := Shorts([c], Plain);
    assert "-" + [c] == ['-', c] && ['-', c] != "--";
    assert Proper(t, it) && Elements(it) == [['-', c]] by {
      assert [['-', c]] + [] == [['-', c]];
    }
    CommandLineReads(t, ord, [it], []);
    assert [it][1..] == [] && AllElements([it]) + [] == [['-', c]];
    assert TakenElements(ord, [it]) + Dashes([]) == [['-', c]] && LeftElements(ord, [it]) + Beyond([]) == [];
    SaysOne(t.short, c);
    assert FlagEvents(t.short, [c]) == [Event(c as int, None, None)] by {
      assert [c][1..] == "";
    }
    assert AllReports(t, ord, [it]) == [Event(c as int, None, None)];
  }

  lemma SaysOne(short: string, c: char)
    requires Says(short, c, Nothing)
    ensures !Says(short, c, Illegal)
  {
  }

  /** How an operand in front of an option is treated: reported if the option string begins with a
      dash; the end of the scan if it begins with a plus or POSIXLY_CORRECT is set; else passed over
      and left for the caller. */
  lemma OrderingShows(optstring: string, posixly: bool, long: Option<seq<LongOption>>, text: string, c: char)
    requires NonOption(text) && c != '-' && Says(optstring, c, Nothing)
    ensures var option := ['-', c];
      Getopt.Whole(Table(GetoptScanner.Letters(optstring, true), long), Table(optstring, long),
                   GetoptScanner.InitialOrdering(optstring, posixly), [text, option]) ==
        if Begins(optstring, '-') then ([text, option], [], [Event(1, Some(text), None), Event(c as int, None, None)])
        else if Begins(optstring, '+') || posixly then ([], [text, option], [])
        else ([option], [text], [Event(c as int, None, None)])
  {
    hide Says, Partition, Events, Getopt.Whole;
    var option, first, later := ['-', c], Table(GetoptScanner.Letters(optstring, true), long), Table(optstring, long);
    var ord := GetoptScanner.InitialOrdering(optstring, posixly);
    if ord.ReturnInOrder? {
      ReportedInOrder(first, later, text, c);
    } else if ord.RequireOrder? {
      AtOnce(first, later, text, option);
    } else {
      Passed(later, text, c);
    }
  }

  lemma ReportedInOrder(first: Table, later: Table, text: string, c: char)
    requires NonOption(text) && c != '-' && Says(later.short, c, Nothing)
    ensures Getopt.Whole(first, later, ReturnInOrder, [text, ['-', c]]) ==
      ([text, ['-', c]], [], [Event(1, Some(text), None), Event(c as int, None, None)])
  {
    hide Says, Partition, Events;
    var rest, s := [text, ['-', c]], Getopt.Scan([text], [], [['-', c]], "");
    assert rest[1..] == [['-', c]] && rest[..0] == [] && rest[0..] == rest && text != "--";
    assert Getopt.Call(first, ReturnInOrder, Getopt.Scan([], [], rest, "")) == Getopt.Got(Event(1, Some(text), None), s)
      by { assert [] + [text] == [text]; }
    OneFlag(later, ReturnInOrder, c);
    hide Getopt.Call;
    assert [text] + [['-', c]] == rest && [Event(1, Some(text), None)] + [Event(c as int, None, None)] ==
      [Event(1, Some(text), None), Event(c as int, None, None)];
  }

  lemma AtOnce(first: Table, later: Table, text: string, option: string)
    requires NonOption(text)
    ensures Getopt.Whole(first, later, RequireOrder, [text, option]) == ([], [text, option], [])
  {
    var rest := [text, option];
    assert rest[..0] == [] && rest[0..] == rest && text != "--";
    assert Getopt.Call(first, RequireOrder, Getopt.Scan([], [], rest, "")) == Getopt.End(Getopt.Scan([], [], rest, ""));
    assert [] + rest == rest;
  }

  lemma Passed(t: Table, text: string, c: char)
    requires NonOption(text) && c != '-' && Says(t.short, c, Nothing)
    ensures Getopt.Whole(t, t, Permute, [text, ['-', c]]) == ([['-', c]], [text], [Event(c as int, None, None)])
  {
    hide Says, Partition, Events, Getopt.Whole;
    var it := Operand(text);
    OneFlag(t, Permute, c);
    OperandTurn(t, Permute, it, [['-', c]]);
    assert Elements(it) + [['-', c]] == [text, ['-', c]];
    Getopt.WholeIsPartition(t, Permute, [text, ['-', c]]);
    assert [text] + [] == [text] && [] + [Event(c as int, None, None)] == [Event(c as int, None, None)];
  }

  /** `--port=9191` */
  lemma PortExample(t: Table, ord: Ordering, i: nat)
    requires t.long.Some? && i < |t.long.value| && t.long.value[i] == LongOption("port", RequiredArgument, false, 112)
    requires Names(t.long.value, "port", Unique(i))
    ensures Events(t, ord, ["--port=9191"]) == [Event(112, Some("9191"), Some(i))]
  {
    hide Events, Partition, Names;
    var it := LongEq("port", "9191", i);
    assert "=" + "9191" == "=9191";
    assert "port" + "=9191" == "port=9191";
    assert "--" + "port=9191" == "--port=9191";
    assert Proper(t, it) && Elements(it) == ["--port=9191"];
    CommandLineReads(t, ord, [it], []);
    assert [it][1..] == [] && AllElements([it]) + [] == ["--port=9191"];
    assert AllReports(t, ord, [it]) == [LongEvent(t, i, Some("9191"))];
  }
}
