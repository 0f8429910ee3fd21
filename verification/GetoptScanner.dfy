/** The `getopt` state machine on the argument vector itself. */
module GetoptScanner {
  import opened Wrappers
  import opened Options
  import opened Getopt
  import opened GetoptMarks

  /** `my_strncmp` as it is used: zero exactly when the first `n` characters of the text
      begin the name. */
  method MyStrncmp(name: string, text: string, n: nat) returns (r: int)
    requires n <= |text| && '\0' !in text
    ensures r == 0 <==> text[..n] <= name
  {
    var i, left := 0, n;
    while left != 0 && i < |name| && name[i] == text[i]
      invariant i + left == n && i <= |name|
      invariant forall j :: 0 <= j < i ==> name[j] == text[j]
    {
      i, left := i + 1, left - 1;
    }
    if left == 0 {
      return 0;
    }
    return At(name, i) as int - text[i] as int;
  }

  /** The search for a long name, with an early exit on an exact match. */
  method LookupLong(opts: seq<LongOption>, text: string, n: nat) returns (f: Found)
    requires n <= |text| && '\0' !in text
    requires forall i :: 0 <= i < |opts| ==> '\0' !in opts[i].name
    ensures f == Lookup(opts, text[..n])
  {
    var name := text[..n];
    f := Unknown;
    var p := 0;
    while p < |opts|
      invariant p <= |opts|
      invariant f.Unique? ==> f.i < |opts|
      invariant Lookup(opts, name) == LookupFrom(opts, name, p, f)
    {
      var cmp := MyStrncmp(opts[p].name, text, n);
      if cmp == 0 {
        if n == |opts[p].name| {
          assert opts[p].name == name;
          return Unique(p);
        } else if f.Unknown? {
          f := Unique(p);
        } else {
          f := Ambiguous;
        }
      }
      p := p + 1;
    }
  }

  function InitialOrdering(optstring: string, posixlyCorrect: bool): Ordering {
    if At(optstring, 0) == '-' then ReturnInOrder
    else if At(optstring, 0) == '+' then RequireOrder
    else if posixlyCorrect then RequireOrder
    else Permute
  }

  /** The leading mode character is skipped on the first call only. */
  function Letters(optstring: string, first: bool): string {
    if first && (At(optstring, 0) == '-' || At(optstring, 0) == '+') then optstring[1..] else optstring
  }

  class Scanner {
    const argv: array<string>
    const optstring: string
    const longopts: Option<seq<LongOption>>
    const posixlyCorrect: bool
    var optind: int
    /** Unread text of the current element; empty stands for the null pointer too. */
    var nextchar: string
    var firstNonopt: int
    var lastNonopt: int
    var ordering: Ordering
    var optarg: Option<string>
    var longind: Option<nat>

    constructor (argv: array<string>, optstring: string, longopts: Option<seq<LongOption>>, posixlyCorrect: bool)
      ensures this.argv == argv && this.optstring == optstring && this.longopts == longopts
      ensures this.posixlyCorrect == posixlyCorrect && optind == 0
    {
      this.argv, this.optstring, this.longopts, this.posixlyCorrect := argv, optstring, longopts, posixlyCorrect;
      optind, nextchar, firstNonopt, lastNonopt := 0, "", 0, 0;
      ordering, optarg, longind := RequireOrder, None, None;
    }

    /** C strings hold no terminator. */
    ghost predicate CStrings()
      reads argv
    {
      && (forall i :: 0 <= i < argv.Length ==> '\0' !in argv[i])
      && (longopts.Some? ==> forall i :: 0 <= i < |longopts.value| ==> '\0' !in longopts.value[i].name)
    }

    /** The state between two calls. */
    ghost predicate Valid()
      reads `optind, `nextchar, `firstNonopt, `lastNonopt, `ordering, argv
    {
      && argv.Length >= 1 && CStrings()
      && 1 <= firstNonopt <= lastNonopt <= optind <= argv.Length
      && (!ordering.Permute? ==> firstNonopt == lastNonopt)
      && '\0' !in nextchar
      && (nextchar != "" ==> optind < argv.Length && !NonOption(argv[optind]) && argv[optind] != "--")
    }

    ghost function Now(): Marks
      reads `optind, `firstNonopt, `lastNonopt, argv
    {
      Marks(argv[..], firstNonopt, lastNonopt, optind)
    }

    /** The abstract scan: the options processed since the skipped non-options belong to the
        options before them. */
    ghost function View(): Scan
      requires 1 <= firstNonopt <= lastNonopt <= optind <= argv.Length
      reads `optind, `nextchar, `firstNonopt, `lastNonopt, argv
    {
      ViewAt(Now(), nextchar)
    }

    /** One of the loops of `exchange`. */
    method Reverse(lo: int, hi: int)
      requires Flip(argv[..], lo, hi).Some?
      modifies argv
      ensures Some(argv[..]) == Flip(old(argv[..]), lo, hi)
    {
      hide Reversal;
      if hi - lo <= 1 {
        return;
      }
      var first, last := lo, hi;
      ghost var was := argv[..];
      while first + 1 < last
        invariant lo <= first <= last <= hi && first - lo == hi - last
        invariant forall i :: lo <= i < first || last <= i < hi ==> argv[i] == was[lo + hi - 1 - i]
        invariant forall i :: 0 <= i < lo || first <= i < last || hi <= i < argv.Length ==> argv[i] == was[i]
      {
        argv[first], argv[last - 1] := argv[last - 1], argv[first];
        first, last := first + 1, last - 1;
      }
      forall i | 0 <= i < argv.Length ensures argv[i] == Reversal(was, lo, hi)[i] {
        ReversalAt(was, lo, hi, i);
      }
      assert argv[..] == Reversal(was, lo, hi);
    }

    /** `exchange`, for any marks that stay inside the vector; for marks in order this is a block
        swap (`ExchangedInOrder`). */
    method Exchange()
      requires Exchanged(Now()).Some?
      modifies argv, `firstNonopt, `lastNonopt
      ensures Some(Now()) == Exchanged(old(Now()))
    {
      hide Flip;
      var f := firstNonopt;
      Reverse(f, optind);
      firstNonopt := firstNonopt + (optind - lastNonopt);
      Reverse(f, firstNonopt);
      lastNonopt := optind;
      Reverse(firstNonopt, lastNonopt);
    }

    /** The start of a scan. */
    method Initialise()
      requires argv.Length >= 1 && CStrings()
      modifies `optind, `nextchar, `firstNonopt, `lastNonopt, `ordering
      ensures Valid() && View() == Scan([], [], argv[1..], "") && optind != 0 && nextchar == ""
      ensures ordering == InitialOrdering(optstring, posixlyCorrect)
    {
      firstNonopt, lastNonopt, optind := 1, 1, 1;
      nextchar := "";
      if At(optstring, 0) == '-' {
        ordering := ReturnInOrder;
      } else if At(optstring, 0) == '+' {
        ordering := RequireOrder;
      } else if posixlyCorrect {
        ordering := RequireOrder;
      } else {
        ordering := Permute;
      }
    }

    /** Under PERMUTE, move the options processed last before the skipped non-options, and skip the
        non-options ahead. */
    method Regroup()
      requires 0 <= optind <= argv.Length && Regrouped(ordering, Now()).Some?
      modifies argv, `optind, `firstNonopt, `lastNonopt
      ensures Some(Now()) == Regrouped(ordering, old(Now()))
    {
      hide Exchanged, NonOption, Leading;
      if ordering.Permute? {
        if firstNonopt != lastNonopt && lastNonopt != optind {
          Exchange();
        } else if lastNonopt != optind {
          firstNonopt := optind;
        }
        var start := optind;
        ghost var all, first := argv[..], firstNonopt;
        ghost var rest := all[optind..];
        while optind < argv.Length && NonOption(argv[optind])
          invariant start <= optind <= argv.Length && argv[..] == all && firstNonopt == first
          invariant forall i :: 0 <= i < optind - start ==> NonOption(rest[i])
        {
          assert rest[optind - start] == argv[optind];
          optind := optind + 1;
        }
        assert optind < argv.Length ==> rest[optind - start] == argv[optind];
        LeadingIs(rest, optind - start);
        lastNonopt := optind;
      }
    }

    /** What the element at `optind` means: the end, or something to report. */
    method Locate() returns (more: bool)
      requires 0 <= optind <= argv.Length && !Settled(ordering, Now()).Outside?
      modifies argv, `optind, `firstNonopt, `lastNonopt
      ensures Settled(ordering, old(Now())) == if more then Reported(Now()) else Eof(Now())
    {
      hide Exchanged, NonOption;
      if optind != argv.Length && argv[optind] == "--" {
        optind := optind + 1;
        if firstNonopt != lastNonopt && lastNonopt != optind {
          Exchange();
        } else if firstNonopt == lastNonopt {
          firstNonopt := optind;
        }
        lastNonopt := argv.Length;
        optind := argv.Length;
      }
      if optind == argv.Length {
        if firstNonopt != lastNonopt {
          optind := firstNonopt;
        }
        return false;
      }
      return !(NonOption(argv[optind]) && ordering.RequireOrder?);
    }

    /** The argument a reading hands over. */
    ghost function ArgText(arg: Arg, at: int): Option<string>
      requires arg.NextElement? ==> 0 <= at + 1 < argv.Length
      reads argv
    {
      match arg case NoArg => None case Inline(s) => Some(s) case NextElement => Some(argv[at + 1])
    }

    /** Decode a long option: the whole element is used up. */
    method ReadLongName(letters: string) returns (c: int)
      requires longopts.Some? && 0 <= optind < argv.Length && '\0' !in nextchar && CStrings()
      requires optarg.None?
      modifies `optind, `nextchar, `optarg, `longind
      ensures var r := ReadLong(letters, longopts.value, old(nextchar), old(optind) + 1 < argv.Length);
        && c == r.code && optind == old(optind) + r.advance && nextchar == r.rest
        && optarg == ArgText(r.arg, old(optind))
        && longind == if r.longind.Some? then r.longind else old(longind)
    {
      hide Lookup, CStrings;
      var text := nextchar;
      var n := EndOfName(text);
      LongNames();
      var f := LookupLong(longopts.value, text, n);
      nextchar := "";
      optind := optind + 1;
      if !f.Unique? {
        return BAD_OPTION;
      }
      var o := longopts.value[f.i];
      if n < |text| {
        if o.hasArg.NoArgument? {
          return BAD_OPTION;
        }
        optarg := Some(text[n + 1..]);
      } else if o.hasArg.RequiredArgument? {
        if optind < argv.Length {
          optarg := Some(argv[optind]);
          optind := optind + 1;
        } else {
          return if At(letters, 0) == ':' then ':' as int else BAD_OPTION;
        }
      }
      longind := Some(f.i);
      return if o.flag then 0 else o.val;
    }

    lemma LongNames()
      requires CStrings() && longopts.Some?
      ensures forall i :: 0 <= i < |longopts.value| ==> '\0' !in longopts.value[i].name
    {
    }

    /** Decode one option character. */
    method ReadLetter(letters: string) returns (c: int)
      requires 0 <= optind < argv.Length && nextchar != ""
      requires optarg.None?
      modifies `optind, `nextchar, `optarg
      ensures var r := ReadShort(letters, old(nextchar), old(optind) + 1 < argv.Length);
        && c == r.code && optind == old(optind) + r.advance && nextchar == r.rest
        && optarg == ArgText(r.arg, old(optind)) && r.longind.None?
    {
      var ch := nextchar[0];
      nextchar := nextchar[1..];
      var temp := IndexOf(letters, ch);
      if nextchar == "" {
        optind := optind + 1;
      }
      if temp == |letters| || ch == ':' {
        return BAD_OPTION;
      }
      c := ch as int;
      if At(letters, temp + 1) == ':' {
        if At(letters, temp + 2) == ':' {
          if nextchar != "" {
            optarg := Some(nextchar);
            optind := optind + 1;
          }
        } else if nextchar != "" {
          optarg := Some(nextchar);
          optind := optind + 1;
        } else if optind == argv.Length {
          c := if At(letters, 0) == ':' then ':' as int else BAD_OPTION;
        } else {
          optarg := Some(argv[optind]);
          optind := optind + 1;
        }
        nextchar := "";
      }
    }

    ghost predicate Callable()
      reads `optind, `nextchar, `firstNonopt, `lastNonopt, `ordering, argv
    {
      argv.Length >= 1 && CStrings() && (optind == 0 || Valid())
    }

    /** The scan a call starts from. */
    ghost function Current(): Scan
      requires Callable()
      reads `optind, `nextchar, `firstNonopt, `lastNonopt, `ordering, argv
    {
      if optind == 0 then Scan([], [], argv[1..], "") else View()
    }

    /** A call after the end, unless its first steps leave the vector. */
    ghost predicate Reentrant()
      reads `optind, `nextchar, `firstNonopt, `lastNonopt, `ordering, argv
    {
      && argv.Length >= 1 && CStrings() && nextchar == ""
      && AfterEnd(ordering, argv[..], firstNonopt, lastNonopt, optind)
      && !Further(ordering, Now()).Outside?
    }

    /** Read the option at `nextchar`. */
    method Take(letters: string) returns (c: int)
      requires 0 <= optind < argv.Length && nextchar != "" && '\0' !in nextchar && CStrings() && optarg.None?
      modifies `optind, `nextchar, `optarg, `longind
      ensures var r := ReadOption(Table(letters, longopts), argv[old(optind)], old(nextchar),
                                  old(optind) + 1 < argv.Length);
        && c == r.code && optind == old(optind) + r.advance && nextchar == r.rest && '\0' !in nextchar
        && optarg == ArgText(r.arg, old(optind))
        && longind == if r.longind.Some? then r.longind else old(longind)
    {
      hide ReadLong, ReadShort, CStrings;
      if IsLong(Table(letters, longopts), argv[optind]) {
        c := ReadLongName(letters);
      } else {
        RestClean(letters, nextchar, optind + 1 < argv.Length);
        c := ReadLetter(letters);
      }
    }

    /** The start of a call that has no text left; the answer, unless there is an option to read. */
    method Search(letters: string) returns (c: Option<int>)
      requires 0 <= optind <= argv.Length && CStrings() && nextchar == "" && optarg.None?
      requires !Further(ordering, Now()).Outside?
      modifies argv, `optind, `nextchar, `firstNonopt, `lastNonopt, `optarg
      ensures CStrings()
      ensures var t := Table(letters, longopts);
        match Further(ordering, old(Now()))
        case Outside => false
        case Eof(m) => c == Some(EOF) && Now() == m && optarg == None && nextchar == ""
        case Reported(m) =>
          && 0 <= m.optind < |m.argv|
          && var elem := m.argv[m.optind];
          if NonOption(elem) then
            c == Some(1) && Now() == m.(optind := m.optind + 1) && optarg == Some(elem) && nextchar == ""
          else
            && c == None && Now() == m && optarg == None
            && nextchar == TextOf(t, elem) && nextchar != "" && '\0' !in nextchar
    {
      hide Regrouped, Settled, NonOption, CStrings;
      FurtherAmong(ordering, Now());
      ghost var was := argv[..];
      Regroup();
      var more := Locate();
      StillStrings(was);
      if !more {
        return Some(EOF);
      }
      if NonOption(argv[optind]) {
        optarg := Some(argv[optind]);
        optind := optind + 1;
        return Some(1);
      }
      CleanElement(optind);
      OptionHasText(Table(letters, longopts), argv[optind]);
      TextClean(Table(letters, longopts), argv[optind]);
      nextchar := TextOf(Table(letters, longopts), argv[optind]);
      return None;
    }

    twostate lemma StillStrings(was: seq<string>)
      requires old(CStrings()) && was == old(argv[..]) && DrawnFrom(argv[..], was)
      ensures CStrings()
    {
      forall i | 0 <= i < argv.Length ensures '\0' !in argv[i] {
        assert argv[..][i] == argv[i];
      }
    }

    lemma CleanElement(i: int)
      requires CStrings() && 0 <= i < argv.Length
      ensures '\0' !in argv[i]
    {
    }

    /** A call after the first. */
    method Continue(letters: string) returns (c: int)
      requires 0 <= optind <= argv.Length && CStrings() && '\0' !in nextchar && optarg.None?
      requires Inside(ordering, Now(), nextchar)
      modifies argv, `optind, `nextchar, `firstNonopt, `lastNonopt, `optarg, `longind
      ensures CStrings() && '\0' !in nextchar
      ensures var step := CallAt(Table(letters, longopts), ordering, old(Now()), old(nextchar));
        && Now() == step.m && nextchar == step.text && c == step.e.code && optarg == step.e.arg
        && longind == if step.e.longind.Some? then step.e.longind else old(longind)
    {
      hide Further, ReadOption, NonOption, CStrings;
      if nextchar == "" {
        var found := Search(letters);
        if found.Some? {
          return found.value;
        }
      }
      c := Take(letters);
    }

    /** One call of `_getopt_internal`.  Between calls it is a call of the abstract scan; and every
        call but the first, also one after the end, does what the marks say. */
    method Next() returns (c: int)
      requires Callable() || Reentrant()
      modifies this, argv
      ensures old(optind) == 0 ==> ordering == InitialOrdering(optstring, posixlyCorrect)
      ensures old(optind) != 0 ==> ordering == old(ordering)
      ensures old(Callable()) ==>
        match Call(Table(Letters(optstring, old(optind) == 0), longopts), ordering, old(Current()))
        case Got(e, s) =>
          && Callable() && optind > 0 && Current() == s
          && c == e.code && optarg == e.arg
          && (longind == if e.longind.Some? then e.longind else old(longind))
          && argv[0] == old(argv[0])
        case End(s) =>
          && c == EOF && optarg == None && nextchar == "" && CStrings()
          && AfterEnd(ordering, argv[..], firstNonopt, lastNonopt, optind)
          && argv[..] == [old(argv[0])] + s.opts + s.nonopts + s.rest
          && optind == 1 + |s.opts|
      ensures old(optind) != 0 ==>
        && Inside(ordering, old(Now()), old(nextchar))
        && var step := CallAt(Table(optstring, longopts), ordering, old(Now()), old(nextchar));
        && Now() == step.m && nextchar == step.text && c == step.e.code && optarg == step.e.arg
    {
      hide Further, CallAt, ViewOf, CStrings, NonOption, Call;
      assert Reentrant() ==> 0 <= optind <= argv.Length;
      hide AfterEnd;
      optarg := None;
      var letters := Letters(optstring, optind == 0);
      if optind == 0 {
        Initialise();
      }
      if Valid() {
        CallInOrder(Table(letters, longopts), ordering, Now(), nextchar);
      }
      c := Continue(letters);
      assert argv[..][0] == argv[0];
      if optind < argv.Length {
        assert 0 <= optind ==> argv[..][optind] == argv[optind];
      }
    }

    /** Call until the end, as the option loop of `risu_main` does, in any ordering: the argument
        vector ends up as the two parts, `optind` points at the second, and the caller was told
        every option in order.  Without a mode character in front of the option letters, these
        are the partition and the events of the command line. */
    method ParseAll() returns (events: seq<Event>)
      requires argv.Length >= 1 && CStrings() && optind == 0
      requires longopts.Some? ==> forall i :: 0 <= i < |longopts.value| ==> longopts.value[i].val != EOF
      modifies this, argv
      ensures var ord := InitialOrdering(optstring, posixlyCorrect);
        var first, later := Table(Letters(optstring, true), longopts), Table(optstring, longopts);
        var whole := Whole(first, later, ord, old(argv[1..]));
        && argv[..] == [old(argv[0])] + whole.0 + whole.1
        && optind == 1 + |whole.0|
        && events == whole.2
        && AfterEnd(ord, argv[..], firstNonopt, lastNonopt, optind) && ordering == ord && nextchar == "" && CStrings()
        && (first == later ==>
              whole == (Partition(later, ord, old(argv[1..])).0, Partition(later, ord, old(argv[1..])).1,
                        Events(later, ord, old(argv[1..]))))
    {
      hide Partition, Events, CStrings, Valid, View, Call, PartsLeft, EventsLeft, ReadElement, Whole, Letters,
        InitialOrdering, AfterEnd;
      ghost var ord := InitialOrdering(optstring, posixlyCorrect);
      ghost var first, later := Table(Letters(optstring, true), longopts), Table(optstring, longopts);
      ghost var start := Current();
      ghost var whole := Whole(first, later, ord, argv[1..]);
      WholeIsPartition(later, ord, argv[1..]);
      events := [];
      while true
        invariant Callable() && argv[0] == old(argv[0]) && ScanOk(Current())
        invariant optind == 0 ==> events == [] && Current() == start
        invariant optind > 0 ==> ordering == ord && Remains(later, ord, Current(), events, whole)
        decreases Unread(Current()).0, Unread(Current()).1
      {
        longind := None;
        ghost var s, was, t := Current(), optind, if optind == 0 then first else later;
        CallKeeps(t, ord, s);
        CodeNotEof(t, ord, s);
        TableOfCall(was == 0);
        var c := Next();
        if c == EOF {
          RunEnds(first, later, ord, s, events, whole, was == 0);
          Joined(old(argv[0]), Call(t, ord, s).s);
          return;
        }
        events := events + [Event(c, optarg, longind)];
        RunGoesOn(first, later, ord, s, events, whole, was == 0);
      }
    }

    /** Only the first call skips the mode character. */
    lemma TableOfCall(isFirst: bool)
      ensures Letters(optstring, isFirst) == if isFirst then Letters(optstring, true) else optstring
    {
    }
  }

  lemma RestClean(letters: string, text: string, hasNext: bool)
    requires text != "" && '\0' !in text
    ensures '\0' !in ReadShort(letters, text, hasNext).rest
  {
  }

  lemma TextClean(t: Table, elem: string)
    requires !NonOption(elem) && '\0' !in elem
    ensures '\0' !in TextOf(t, elem)
  {
  }

  /** What is done and what is left make up the whole run. */
  ghost predicate Remains(
    t: Table, ord: Ordering, s: Scan, events: seq<Event>, whole: (seq<string>, seq<string>, seq<Event>))
    requires ScanOk(s)
  {
    && whole.0 == s.opts + PartsLeft(t, ord, s).0
    && whole.1 == s.nonopts + PartsLeft(t, ord, s).1
    && whole.2 == events + EventsLeft(t, ord, s)
  }

  lemma RunGoesOn(
    first: Table, later: Table, ord: Ordering, s: Scan, events: seq<Event>,
    whole: (seq<string>, seq<string>, seq<Event>), isFirst: bool)
    requires ScanOk(s)
    requires var c := Call(if isFirst then first else later, ord, s);
      c.Got? && events != [] && events[|events| - 1] == c.e
    requires isFirst ==> s == Scan([], [], s.rest, "") && |events| == 1 && whole == Whole(first, later, ord, s.rest)
    requires !isFirst ==> Remains(later, ord, s, events[..|events| - 1], whole)
    ensures var s' := Call(if isFirst then first else later, ord, s).s;
      ScanOk(s') && Remains(later, ord, s', events, whole)
  {
    hide Call, PartsLeft, EventsLeft;
    CallKeeps(if isFirst then first else later, ord, s);
    var s' := Call(if isFirst then first else later, ord, s).s;
    var before, e := events[..|events| - 1], events[|events| - 1];
    assert events == before + [e];
    if !isFirst {
      var more := EventsLeft(later, ord, s');
      assert before + ([e] + more) == events + more;
    }
  }

  lemma RunEnds(
    first: Table, later: Table, ord: Ordering, s: Scan, events: seq<Event>,
    whole: (seq<string>, seq<string>, seq<Event>), isFirst: bool)
    requires ScanOk(s) && Call(if isFirst then first else later, ord, s).End?
    requires isFirst ==> s == Scan([], [], s.rest, "") && events == [] && whole == Whole(first, later, ord, s.rest)
    requires !isFirst ==> Remains(later, ord, s, events, whole)
    ensures var e := Call(if isFirst then first else later, ord, s).s;
      whole == (e.opts, e.nonopts + e.rest, events)
  {
    hide Call, PartsLeft, EventsLeft;
    CallKeeps(if isFirst then first else later, ord, s);
    var e := Call(if isFirst then first else later, ord, s).s;
    if !isFirst {
      assert e.opts + [] == e.opts && events + [] == events;
    }
  }

  lemma Joined(name: string, e: Scan)
    ensures [name] + e.opts + e.nonopts + e.rest == [name] + e.opts + (e.nonopts + e.rest)
  {
  }

  /** No option is reported as the end. */
  lemma CodeNotEof(t: Table, ord: Ordering, s: Scan)
    requires ScanOk(s)
    requires t.long.Some? ==> forall i :: 0 <= i < |t.long.value| ==> t.long.value[i].val != EOF
    ensures Call(t, ord, s).Got? ==> Call(t, ord, s).e.code != EOF
  {
    hide Consume, Leading;
    if s.text != "" {
      ConsumeNotEof(t, s);
    } else {
      var u := Skipped(ord, s);
      if u.rest != [] && u.rest[0] != "--" && !NonOption(u.rest[0]) {
        ConsumeNotEof(t, u.(text := TextOf(t, u.rest[0])));
      }
    }
  }

  lemma ConsumeNotEof(t: Table, s: Scan)
    requires s.rest != [] && (IsLong(t, s.rest[0]) || s.text != "")
    requires t.long.Some? ==> forall i :: 0 <= i < |t.long.value| ==> t.long.value[i].val != EOF
    ensures Consume(t, s).0.code != EOF
  {
    hide Lookup, Demand;
  }

  method EndOfName(text: string) returns (n: nat)
    ensures n == IndexOf(text, '=')
  {
    n := 0;
    while n < |text| && text[n] != '='
      invariant n <= |text|
      invariant forall j :: 0 <= j < n ==> text[j] != '='
    {
      n := n + 1;
    }
  }

}
