/** What one option element of a command line means, independent of any scanning state. */
module Options {
  import opened Wrappers

  datatype HasArg = NoArgument | RequiredArgument | OptionalArgument

  /** `struct option`; `flag` says whether the flag pointer is set. */
  datatype LongOption = LongOption(name: string, hasArg: HasArg, flag: bool, val: int)

  const BAD_OPTION := 0

  /** The options a program accepts; `long` is absent for plain `getopt`. */
  datatype Table = Table(short: string, long: Option<seq<LongOption>>)

  /** An element that is not an option: no dash, or a dash alone. */
  predicate NonOption(s: string) { |s| <= 1 || s[0] != '-' }

  // ---------------------------------------------------------------- long names

  datatype Found = Unique(i: nat) | Ambiguous | Unknown

  predicate Exact(opts: seq<LongOption>, name: string, i: int)
    requires 0 <= i < |opts|
  {
    opts[i].name == name
  }

  predicate Abbreviates(opts: seq<LongOption>, name: string, i: int)
    requires 0 <= i < |opts|
  {
    name <= opts[i].name
  }

  /** What a name stands for: an exact match if there is one, else the only option it
      abbreviates, else an error. */
  ghost predicate Names(opts: seq<LongOption>, name: string, r: Found) {
    if exists i :: 0 <= i < |opts| && Exact(opts, name, i) then
      r.Unique? && r.i < |opts| && Exact(opts, name, r.i) && forall j :: 0 <= j < r.i ==> !Exact(opts, name, j)
    else
      match r
      case Unique(i) =>
        i < |opts| && Abbreviates(opts, name, i) && forall j :: 0 <= j < |opts| && Abbreviates(opts, name, j) ==> j == i
      case Ambiguous =>
        exists i, j :: 0 <= i < j < |opts| && Abbreviates(opts, name, i) && Abbreviates(opts, name, j)
      case Unknown => forall i :: 0 <= i < |opts| ==> !Abbreviates(opts, name, i)
  }

  /** The scan of the option table from entry `k`, having found `r` among the abbreviations. */
  function LookupFrom(opts: seq<LongOption>, name: string, k: nat, r: Found): (f: Found)
    requires k <= |opts|
    requires r.Unique? ==> r.i < |opts|
    ensures f.Unique? ==> f.i < |opts|
    decreases |opts| - k
  {
    if k == |opts| then r
    else if Exact(opts, name, k) then Unique(k)
    else if !Abbreviates(opts, name, k) then LookupFrom(opts, name, k + 1, r)
    else LookupFrom(opts, name, k + 1, if r.Unknown? then Unique(k) else Ambiguous)
  }

  function Lookup(opts: seq<LongOption>, name: string): (f: Found)
    ensures f.Unique? ==> f.i < |opts|
  {
    LookupFrom(opts, name, 0, Unknown)
  }

  /** The state of the scan: the meaning of the name among the first `k` entries. */
  ghost predicate Among(opts: seq<LongOption>, name: string, k: nat, r: Found)
    requires k <= |opts|
  {
    && (forall i :: 0 <= i < k ==> !Exact(opts, name, i))
    && Names(opts[..k], name, r)
  }

  lemma AmongStep(opts: seq<LongOption>, name: string, k: nat, r: Found)
    requires k < |opts| && Among(opts, name, k, r) && !Exact(opts, name, k)
    ensures Among(opts, name, k + 1,
      if !Abbreviates(opts, name, k) then r else if r.Unknown? then Unique(k) else Ambiguous)
  {
    var a, b := opts[..k], opts[..k + 1];
    assert forall i :: 0 <= i < k ==> (Exact(a, name, i) <==> Exact(opts, name, i));
    assert forall i :: 0 <= i < k + 1 ==> (Exact(b, name, i) <==> Exact(opts, name, i));
    assert forall i :: 0 <= i < k ==> (Abbreviates(a, name, i) <==> Abbreviates(b, name, i));
    assert Abbreviates(b, name, k) <==> Abbreviates(opts, name, k);
    if Abbreviates(opts, name, k) {
      match r
      case Unique(i) =>
        assert Abbreviates(b, name, i) && Abbreviates(b, name, k);
      case Ambiguous =>
        var i, j :| 0 <= i < j < k && Abbreviates(a, name, i) && Abbreviates(a, name, j);
        assert Abbreviates(b, name, i) && Abbreviates(b, name, j);
      case Unknown =>
    } else if r.Ambiguous? {
      var i, j :| 0 <= i < j < k && Abbreviates(a, name, i) && Abbreviates(a, name, j);
      assert Abbreviates(b, name, i) && Abbreviates(b, name, j);
    }
  }

  lemma {:induction false} LookupFromNames(opts: seq<LongOption>, name: string, k: nat, r: Found)
    requires k <= |opts| && Among(opts, name, k, r)
    ensures Names(opts, name, LookupFrom(opts, name, k, r))
    decreases |opts| - k
  {
    if k == |opts| {
      assert opts[..k] == opts;
    } else if !Exact(opts, name, k) {
      AmongStep(opts, name, k, r);
      LookupFromNames(opts, name, k + 1,
        if !Abbreviates(opts, name, k) then r else if r.Unknown? then Unique(k) else Ambiguous);
    }
  }

  /** The table scan finds what the name stands for. */
  lemma LookupNames(opts: seq<LongOption>, name: string)
    ensures Names(opts, name, Lookup(opts, name))
  {
    LookupFromNames(opts, name, 0, Unknown);
  }

  // ---------------------------------------------------------------- one step inside an element

  datatype Arg = NoArg | Inline(text: string) | NextElement

  /** The outcome of reading one option: what is returned, where its argument comes from, what
      text of the element is left, and by how many elements the scan moves on. */
  datatype Reading = Reading(code: int, arg: Arg, rest: string, advance: nat, longind: Option<nat>)

  function IndexOf(s: string, c: char): (i: nat)
    ensures i <= |s|
    ensures i < |s| ==> s[i] == c
    ensures forall j :: 0 <= j < i ==> s[j] != c
  {
    if s == "" then 0 else if s[0] == c then 0 else 1 + IndexOf(s[1..], c)
  }

  /** The character of `s` at `i`, or the terminator. */
  function At(s: string, i: nat): char { if i < |s| then s[i] else '\0' }

  datatype Wants = Illegal | Nothing | Optionally | Required

  /** What the option string says about a character. */
  function Demand(short: string, c: char): Wants {
    var i := IndexOf(short, c);
    if i == |short| || c == ':' then Illegal
    else if At(short, i + 1) != ':' then Nothing
    else if At(short, i + 2) == ':' then Optionally
    else Required
  }

  function MissingArgument(short: string): int { if At(short, 0) == ':' then ':' as int else BAD_OPTION }

  function ReadShort(short: string, text: string, hasNext: bool): (r: Reading)
    requires text != ""
    ensures r.advance <= 2 && (r.advance == 2 ==> hasNext)
    ensures r.advance == 0 <==> r.rest != ""
    ensures |r.rest| < |text|
    ensures r.advance == 2 <==> r.arg.NextElement?
  {
    var c, rest := text[0], text[1..];
    var last := if rest == "" then 1 else 0;
    match Demand(short, c)
    case Illegal => Reading(BAD_OPTION, NoArg, rest, last, None)
    case Nothing => Reading(c as int, NoArg, rest, last, None)
    case Optionally => Reading(c as int, if rest != "" then Inline(rest) else NoArg, "", 1, None)
    case Required =>
      if rest != "" then Reading(c as int, Inline(rest), "", 1, None)
      else if hasNext then Reading(c as int, NextElement, "", 2, None)
      else Reading(MissingArgument(short), NoArg, "", 1, None)
  }

  function ReadLong(short: string, opts: seq<LongOption>, text: string, hasNext: bool): (r: Reading)
    ensures 1 <= r.advance <= 2 && (r.advance == 2 ==> hasNext)
    ensures r.rest == ""
    ensures r.advance == 2 <==> r.arg.NextElement?
  {
    var n := IndexOf(text, '=');
    match Lookup(opts, text[..n])
    case Ambiguous => Reading(BAD_OPTION, NoArg, "", 1, None)
    case Unknown => Reading(BAD_OPTION, NoArg, "", 1, None)
    case Unique(i) =>
      var o := opts[i];
      var code := if o.flag then 0 else o.val;
      if n < |text| then
        if o.hasArg.NoArgument? then Reading(BAD_OPTION, NoArg, "", 1, None)
        else Reading(code, Inline(text[n + 1..]), "", 1, Some(i))
      else if o.hasArg.RequiredArgument? then
        if hasNext then Reading(code, NextElement, "", 2, Some(i))
        else Reading(MissingArgument(short), NoArg, "", 1, None)
      else Reading(code, NoArg, "", 1, Some(i))
  }

  // ---------------------------------------------------------------- the mode character

  /** What the letters say about the mode character in front of them. */
  function FrontDemand(short: string): Wants {
    if At(short, 0) != ':' then Nothing else if At(short, 1) != ':' then Required else Optionally
  }

  /** Whether a letter is read alike under two demands, with no report of a missing argument. */
  predicate ReadAlike(d: Wants, e: Wants, alone: bool) {
    d == e || if alone then {d, e} == {Nothing, Optionally} else {d, e} == {Optionally, Required}
  }

  /** A mode character in front of the letters, which only the first call skips, shows in a later
      reading of a short option exactly in these cases.  Another letter is read otherwise when its
      argument is missing and the letters begin with a colon, for the report then changes.  The
      mode character itself, if it is no letter, becomes one: it is still refused only when the
      colon behind it makes it want an argument that is missing.  If it is a letter too, it is read
      by what stands behind its first place. */
  lemma ModeCharacterShows(mode: char, short: string, text: string, hasNext: bool)
    requires text != "" && (mode == '-' || mode == '+')
    ensures var missing := |text| == 1 && !hasNext; var e := Demand(short, text[0]);
      ReadShort([mode] + short, text, hasNext) == ReadShort(short, text, hasNext) <==>
        if text[0] != mode then !(At(short, 0) == ':' && e.Required? && missing)
        else if mode !in short then At(short, 0) == ':' && At(short, 1) != ':' && missing
        else ReadAlike(FrontDemand(short), e, |text| == 1) && !(e.Required? && missing)
  {
    hide IndexOf;
    var all := [mode] + short;
    assert all[1..] == short;
    IndexForm(all, text[0]);
    assert forall i: nat :: At(all, i + 1) == At(short, i);
    if text[0] == mode {
      assert Demand(all, mode) == FrontDemand(short);
      IndexFinds(short, mode);
    } else {
      assert Demand(all, text[0]) == Demand(short, text[0]);
    }
    hide Demand;
    ReadShortForm(all, text, hasNext);
    ReadShortForm(short, text, hasNext);
  }

  lemma IndexForm(s: string, c: char)
    requires s != ""
    ensures IndexOf(s, c) == if s[0] == c then 0 else 1 + IndexOf(s[1..], c)
  {
  }

  lemma IndexFinds(s: string, c: char)
    ensures IndexOf(s, c) < |s| <==> c in s
  {
    hide IndexOf;
    if c in s {
      var i :| 0 <= i < |s| && s[i] == c;
    }
  }

  lemma ReadShortForm(short: string, text: string, hasNext: bool)
    requires text != ""
    ensures ReadShort(short, text, hasNext) ==
      var c, rest := text[0], text[1..];
      var last := if |text| == 1 then 1 else 0;
      match Demand(short, c)
      case Illegal => Reading(BAD_OPTION, NoArg, rest, last, None)
      case Nothing => Reading(c as int, NoArg, rest, last, None)
      case Optionally => Reading(c as int, if |text| > 1 then Inline(rest) else NoArg, "", 1, None)
      case Required =>
        if |text| > 1 then Reading(c as int, Inline(rest), "", 1, None)
        else if hasNext then Reading(c as int, NextElement, "", 2, None)
        else Reading(MissingArgument(short), NoArg, "", 1, None)
  {
    hide Demand;
  }

  /** A long option that wants an argument and stands alone. */
  predicate LacksArgument(opts: seq<LongOption>, text: string, hasNext: bool) {
    var f := Lookup(opts, text);
    !hasNext && IndexOf(text, '=') == |text| && f.Unique? && opts[f.i].hasArg.RequiredArgument?
  }

  /** In a long option it shows exactly when a required argument is missing and the letters begin
      with a colon. */
  lemma ModeCharacterShowsLong(mode: char, short: string, opts: seq<LongOption>, text: string, hasNext: bool)
    requires mode == '-' || mode == '+'
    ensures ReadLong([mode] + short, opts, text, hasNext) == ReadLong(short, opts, text, hasNext) <==>
      !(At(short, 0) == ':' && LacksArgument(opts, text, hasNext))
  {
    hide Lookup;
    assert text[..|text|] == text;
  }

  /** `-a+` with the letters "+ab": the second call takes the plus sign for an option. */
  lemma PlusBecomesLetter()
    ensures ReadShort("+ab", "+", false).code == '+' as int && ReadShort("ab", "+", false).code == BAD_OPTION
  {
    assert IndexOf("ab", '+') == 1 + IndexOf("ab"[1..], '+');
  }

  predicate IsLong(t: Table, elem: string) { t.long.Some? && |elem| >= 2 && elem[0] == '-' && elem[1] == '-' }

  /** Where the option text of an element begins. */
  function TextOf(t: Table, elem: string): string
    requires !NonOption(elem)
  {
    if IsLong(t, elem) then elem[2..] else elem[1..]
  }

  /** Read the next option of `elem` at `text`. */
  function ReadOption(t: Table, elem: string, text: string, hasNext: bool): (r: Reading)
    requires IsLong(t, elem) || text != ""
    ensures r.advance <= 2 && (r.advance == 2 ==> hasNext)
    ensures r.advance == 0 <==> r.rest != ""
    ensures r.rest != "" ==> |r.rest| < |text|
    ensures r.advance == 2 <==> r.arg.NextElement?
  {
    if IsLong(t, elem) then ReadLong(t.short, t.long.value, text, hasNext)
    else ReadShort(t.short, text, hasNext)
  }

  // ---------------------------------------------------------------- the whole command line

  /** What to do with a non-option: stop, pass over it, or report it like an option. */
  datatype Ordering = RequireOrder | Permute | ReturnInOrder

  /** One value handed to the caller. */
  datatype Event = Event(code: int, arg: Option<string>, longind: Option<nat>)

  function EventOf(r: Reading, rest: seq<string>): Event
    requires r.arg.NextElement? ==> |rest| >= 2
  {
    Event(r.code,
          match r.arg case NoArg => None case Inline(s) => Some(s) case NextElement => Some(rest[1]),
          r.longind)
  }

  /** The options of the element at the head of `rest`, from `text` on, and the number of
      elements they take: the element itself and perhaps a separate argument. */
  function ReadElement(t: Table, rest: seq<string>, text: string): (r: (seq<Event>, nat))
    requires rest != [] && !NonOption(rest[0])
    requires IsLong(t, rest[0]) || text != ""
    ensures 1 <= r.1 <= 2 && r.1 <= |rest|
    decreases |text|
  {
    var r := ReadOption(t, rest[0], text, |rest| > 1);
    var e := EventOf(r, rest);
    if r.advance > 0 then ([e], r.advance)
    else
      var (es, n) := ReadElement(t, rest, r.rest);
      ([e] + es, n)
  }

  /** The elements that were read: options, their arguments, the terminating "--" and reported
      non-options, in order; and the others, in order. */
  function Partition(t: Table, ord: Ordering, rest: seq<string>): (seq<string>, seq<string>)
    decreases |rest|
  {
    if rest == [] then ([], [])
    else if rest[0] == "--" then (["--"], rest[1..])
    else if NonOption(rest[0]) then
      if ord.RequireOrder? then ([], rest)
      else
        var (o, n) := Partition(t, ord, rest[1..]);
        if ord.Permute? then (o, [rest[0]] + n) else ([rest[0]] + o, n)
    else
      var k := ReadElement(t, rest, TextOf(t, rest[0])).1;
      var (o, n) := Partition(t, ord, rest[k..]);
      (rest[..k] + o, n)
  }

  /** What the caller is told, in order. */
  function Events(t: Table, ord: Ordering, rest: seq<string>): seq<Event>
    decreases |rest|
  {
    if rest == [] || rest[0] == "--" then []
    else if NonOption(rest[0]) then
      if ord.RequireOrder? then []
      else (if ord.Permute? then [] else [Event(1, Some(rest[0]), None)]) + Events(t, ord, rest[1..])
    else
      var (es, k) := ReadElement(t, rest, TextOf(t, rest[0]));
      es + Events(t, ord, rest[k..])
  }

  /** Nothing is lost or invented: the two parts are a rearrangement of the command line. */
  lemma {:induction false} PartitionConserves(t: Table, ord: Ordering, rest: seq<string>)
    ensures var (o, n) := Partition(t, ord, rest); multiset(o) + multiset(n) == multiset(rest)
    decreases |rest|
  {
    hide ReadElement;
    if rest == [] || (NonOption(rest[0]) && ord.RequireOrder?) {
    } else if rest[0] == "--" {
      assert rest == ["--"] + rest[1..];
    } else if NonOption(rest[0]) {
      PartitionConserves(t, ord, rest[1..]);
      assert rest == [rest[0]] + rest[1..];
    } else {
      var k := ReadElement(t, rest, TextOf(t, rest[0])).1;
      PartitionConserves(t, ord, rest[k..]);
      assert rest == rest[..k] + rest[k..];
    }
  }

  /** Only PERMUTE moves anything: otherwise the two parts are a front and a back. */
  lemma {:induction false} OrderKept(t: Table, ord: Ordering, rest: seq<string>)
    requires !ord.Permute?
    ensures var (o, n) := Partition(t, ord, rest); o + n == rest
    decreases |rest|
  {
    hide ReadElement, Partition;
    var k := InOrder(t, ord, rest);
    var (o, n) := Partition(t, ord, rest[k..]);
    if k > 0 {
      OrderKept(t, ord, rest[k..]);
      assert (rest[..k] + o) + n == rest[..k] + (o + n);
    }
  }

  /** Outside PERMUTE the scan takes `k` elements and goes on, or (`k == 0`) it ends. */
  lemma InOrder(t: Table, ord: Ordering, rest: seq<string>) returns (k: nat)
    requires !ord.Permute?
    ensures k <= |rest|
    ensures var (o, n) := Partition(t, ord, rest);
      if k == 0 then o + n == rest
      else Partition(t, ord, rest) == (rest[..k] + Partition(t, ord, rest[k..]).0, Partition(t, ord, rest[k..]).1)
  {
    hide ReadElement;
    if rest == [] || rest[0] == "--" || (NonOption(rest[0]) && ord.RequireOrder?) {
      k := 0;
      assert [] + rest == rest;
      assert rest != [] && rest[0] == "--" ==> ["--"] + rest[1..] == rest;
    } else {
      k := if NonOption(rest[0]) then 1 else ReadElement(t, rest, TextOf(t, rest[0])).1;
      assert rest[..1] == [rest[0]];
    }
  }

  /** Which elements are options, arguments of options, reported non-options, or the first "--". */
  function Taken(t: Table, ord: Ordering, rest: seq<string>): (m: seq<bool>)
    ensures |m| == |rest|
    decreases |rest|
  {
    if rest == [] then []
    else if rest[0] == "--" then [true] + Run(false, |rest| - 1)
    else if NonOption(rest[0]) then
      if ord.RequireOrder? then Run(false, |rest|) else [!ord.Permute?] + Taken(t, ord, rest[1..])
    else
      var k := ReadElement(t, rest, TextOf(t, rest[0])).1;
      Run(true, k) + Taken(t, ord, rest[k..])
  }

  function Run(b: bool, n: nat): (m: seq<bool>)
    ensures |m| == n
  {
    if n == 0 then [] else [b] + Run(b, n - 1)
  }

  /** The elements marked `which`, in their order. */
  function Select(s: seq<string>, m: seq<bool>, which: bool): seq<string>
    requires |s| == |m|
  {
    if s == [] then [] else (if m[0] == which then [s[0]] else []) + Select(s[1..], m[1..], which)
  }

  lemma {:induction false} SelectRun(s: seq<string>, b: bool, which: bool)
    ensures Select(s, Run(b, |s|), which) == if b == which then s else []
  {
    if s != [] {
      SelectRun(s[1..], b, which);
      assert Run(b, |s|)[1..] == Run(b, |s| - 1);
    }
  }

  lemma {:induction false} SelectAppend(s: seq<string>, m: seq<bool>, u: seq<string>, n: seq<bool>, which: bool)
    requires |s| == |m| && |u| == |n|
    ensures Select(s + u, m + n, which) == Select(s, m, which) + Select(u, n, which)
  {
    if s == [] {
      assert s + u == u && m + n == n;
    } else {
      var head := if m[0] == which then [s[0]] else [];
      var a, b := Select(s[1..], m[1..], which), Select(u, n, which);
      assert (s + u)[1..] == s[1..] + u && (m + n)[1..] == m[1..] + n;
      SelectAppend(s[1..], m[1..], u, n, which);
      assert Select(s + u, m + n, which) == head + Select((s + u)[1..], (m + n)[1..], which);
      assert head + (a + b) == (head + a) + b;
    }
  }

  /** The two parts are selections by one marking: a stable partition. */
  lemma {:induction false} PartitionIsStable(t: Table, ord: Ordering, rest: seq<string>)
    ensures Partition(t, ord, rest) ==
      (Select(rest, Taken(t, ord, rest), true), Select(rest, Taken(t, ord, rest), false))
    decreases |rest|
  {
    hide ReadElement, Select;
    var m := Taken(t, ord, rest);
    if rest == [] {
      SelectRun(rest, true, true);
      SelectRun(rest, true, false);
      assert Run(true, 0) == m;
    } else if rest[0] == "--" {
      HeadStable(rest, m);
      assert m[1..] == Run(false, |rest[1..]|);
      SelectRun(rest[1..], false, true);
      SelectRun(rest[1..], false, false);
      assert [rest[0]] + [] == ["--"];
    } else if NonOption(rest[0]) && ord.RequireOrder? {
      SelectRun(rest, false, true);
      SelectRun(rest, false, false);
    } else if NonOption(rest[0]) {
      PartitionIsStable(t, ord, rest[1..]);
      HeadStable(rest, m);
      assert m[1..] == Taken(t, ord, rest[1..]);
    } else {
      var k := ReadElement(t, rest, TextOf(t, rest[0])).1;
      PartitionIsStable(t, ord, rest[k..]);
      FrontStable(rest, k, Taken(t, ord, rest[k..]));
    }
  }

  /** An element in front goes to the part it is marked for. */
  lemma HeadStable(s: seq<string>, m: seq<bool>)
    requires |s| == |m| > 0
    ensures Select(s, m, m[0]) == [s[0]] + Select(s[1..], m[1..], m[0])
    ensures Select(s, m, !m[0]) == Select(s[1..], m[1..], !m[0])
  {
    var rest := Select(s[1..], m[1..], !m[0]);
    assert [] + rest == rest;
  }

  lemma FrontStable(s: seq<string>, k: nat, m: seq<bool>)
    requires k <= |s| && |m| == |s| - k
    ensures Select(s, Run(true, k) + m, true) == s[..k] + Select(s[k..], m, true)
    ensures Select(s, Run(true, k) + m, false) == Select(s[k..], m, false)
  {
    hide Select;
    assert s == s[..k] + s[k..];
    SelectAppend(s[..k], Run(true, k), s[k..], m, true);
    SelectAppend(s[..k], Run(true, k), s[k..], m, false);
    SelectRun(s[..k], true, true);
    SelectRun(s[..k], true, false);
    var n := Select(s[k..], m, false);
    assert [] + n == n;
  }

  /** A short-option cluster takes the next element exactly when its last character requires an
      argument and no earlier one swallows the rest of the cluster. */
  lemma {:induction false} ClusterTakesNext(t: Table, rest: seq<string>, text: string)
    requires rest != [] && !NonOption(rest[0]) && !IsLong(t, rest[0]) && text != ""
    ensures ReadElement(t, rest, text).1 == 2 <==>
      && |rest| > 1
      && Demand(t.short, text[|text| - 1]).Required?
      && forall i :: 0 <= i < |text| - 1 ==> Demand(t.short, text[i]).Nothing? || Demand(t.short, text[i]).Illegal?
    decreases |text|
  {
    hide Demand;
    if |text| > 1 && (Demand(t.short, text[0]).Nothing? || Demand(t.short, text[0]).Illegal?) {
      ClusterTakesNext(t, rest, text[1..]);
      assert forall i :: 0 < i < |text| ==> text[i] == text[1..][i - 1];
    }
  }
}
