/** The marks `getopt` keeps in the argument vector, and the start of a call for any marks: regrouping,
    skipping, and deciding how to go on.  Between two calls the marks stand in order, and the start
    of a call is then that of the abstract scan; after the end they stand the other way round. */
module GetoptMarks {
  import opened Wrappers
  import opened Options
  import opened Getopt

  // ---------------------------------------------------------------- blocks of a vector

  /** Elements `[lo, hi)` in reverse order. */
  function Reversal(s: seq<string>, lo: nat, hi: nat): (r: seq<string>)
    requires lo <= hi <= |s|
    ensures |r| == |s|
  {
    seq(|s|, i requires 0 <= i < |s| => if lo <= i < hi then s[lo + hi - 1 - i] else s[i])
  }

  lemma ReversalAt(s: seq<string>, lo: nat, hi: nat, i: nat)
    requires lo <= hi <= |s| && i < |s|
    ensures Reversal(s, lo, hi)[i] == if lo <= i < hi then s[lo + hi - 1 - i] else s[i]
  {
  }

  /** The adjacent blocks `[f, l)` and `[l, o)` swapped. */
  function Swapped(s: seq<string>, f: nat, l: nat, o: nat): seq<string>
    requires f <= l <= o <= |s|
  {
    s[..f] + s[l..o] + s[f..l] + s[o..]
  }

  lemma SwappedAt(s: seq<string>, f: nat, l: nat, o: nat, i: nat)
    requires f <= l <= o <= |s| && i < |s|
    ensures |Swapped(s, f, l, o)| == |s|
    ensures Swapped(s, f, l, o)[i] ==
      if i < f || i >= o then s[i] else if i < f + (o - l) then s[i + (l - f)] else s[i - (o - l)]
  {
  }

  lemma SwappedLength(s: seq<string>, f: nat, l: nat, o: nat)
    requires f <= l <= o <= |s|
    ensures |Swapped(s, f, l, o)| == |s|
  {
  }

  lemma ThreeReversals(s: seq<string>, f: nat, l: nat, o: nat)
    requires f <= l <= o <= |s|
    ensures var m := f + (o - l);
      Reversal(Reversal(Reversal(s, f, o), f, m), m, o) == Swapped(s, f, l, o)
  {
    hide Swapped, Reversal;
    var m := f + (o - l);
    var a := Reversal(s, f, o);
    var b := Reversal(a, f, m);
    var c := Reversal(b, m, o);
    SwappedLength(s, f, l, o);
    forall i | 0 <= i < |s| ensures c[i] == Swapped(s, f, l, o)[i] {
      SwappedAt(s, f, l, o, i);
      var j := if m <= i < o then m + o - 1 - i else i;
      var k := if f <= j < m then f + m - 1 - j else j;
      ReversalAt(b, m, o, i);
      ReversalAt(a, f, m, j);
      ReversalAt(s, f, o, k);
    }
  }

  lemma SwapKeeps(s: seq<string>, f: nat, l: nat, o: nat)
    requires 1 <= f <= l <= o <= |s|
    ensures var r := Swapped(s, f, l, o); var m := f + (o - l);
      && |r| == |s| && r[0] == s[0]
      && r[1..m] == s[1..f] + s[l..o]
      && r[m..o] == s[f..l]
      && r[o..] == s[o..]
      && forall i :: 0 <= i < |r| ==> r[i] in s
  {
    var r := Swapped(s, f, l, o);
    var m := f + (o - l);
    forall i | 0 <= i < |r| ensures r[i] in s {
      if i < f || i >= o {
        assert r[i] == s[i];
      } else if i < m {
        assert r[i] == s[i + (l - f)];
      } else {
        assert r[i] == s[i - (o - l)];
      }
    }
  }

  lemma {:induction false} LeadingIs(rest: seq<string>, k: nat)
    requires k <= |rest|
    requires forall i :: 0 <= i < k ==> NonOption(rest[i])
    requires k < |rest| ==> !NonOption(rest[k])
    ensures Leading(rest) == k
  {
  }

  // ---------------------------------------------------------------- the start of a call

  /** The vector with its marks, which may leave it. */
  datatype Marks = Marks(argv: seq<string>, first: int, last: int, optind: int)

  /** What the start of a call comes to: a step outside the vector, the end, or an element to
      report, at `optind`. */
  datatype Again = Outside | Eof(m: Marks) | Reported(m: Marks)

  /** One of the three loops of `exchange`, for any bounds. */
  function Flip(s: seq<string>, lo: int, hi: int): (r: Option<seq<string>>)
    ensures r.Some? ==> |r.value| == |s|
  {
    if hi - lo <= 1 then Some(s) else if lo < 0 || hi > |s| then None else Some(Reversal(s, lo, hi))
  }

  /** `exchange`, for any marks. */
  function Exchanged(m: Marks): (r: Option<Marks>)
    ensures r.Some? ==> |r.value.argv| == |m.argv| && r.value.optind == m.optind
  {
    var to := m.first + (m.optind - m.last);
    var a := Flip(m.argv, m.first, m.optind);
    var b := if a.None? then None else Flip(a.value, m.first, to);
    var c := if b.None? then None else Flip(b.value, to, m.optind);
    if c.None? then None else Some(Marks(c.value, to, m.optind, m.optind))
  }

  /** The regrouping and skipping at the start of a call. */
  function Regrouped(ord: Ordering, m: Marks): (r: Option<Marks>)
    requires 0 <= m.optind <= |m.argv|
    ensures r.Some? ==> |r.value.argv| == |m.argv| && m.optind <= r.value.optind <= |m.argv|
  {
    if !ord.Permute? then Some(m)
    else
      var g :=
        if m.first != m.last && m.last != m.optind then Exchanged(m)
        else Some(if m.last != m.optind then m.(first := m.optind) else m);
      if g.None? then None
      else
        var o := m.optind + Leading(g.value.argv[m.optind..]);
        Some(g.value.(last := o, optind := o))
  }

  function Ending(m: Marks): Again { Eof(if m.first != m.last then m.(optind := m.first) else m) }

  /** The rest of a call that has no text left. */
  function Settled(ord: Ordering, m: Marks): Again
    requires 0 <= m.optind <= |m.argv|
  {
    var argc := |m.argv|;
    if m.optind < argc && m.argv[m.optind] == "--" then
      var m1 := m.(optind := m.optind + 1);
      var g :=
        if m1.first != m1.last && m1.last != m1.optind then Exchanged(m1)
        else Some(if m1.first == m1.last then m1.(first := m1.optind) else m1);
      if g.None? then Outside else Ending(g.value.(last := argc, optind := argc))
    else if m.optind == argc then Ending(m)
    else if NonOption(m.argv[m.optind]) && ord.RequireOrder? then Eof(m)
    else Reported(m)
  }

  function Further(ord: Ordering, m: Marks): Again
    requires 0 <= m.optind <= |m.argv|
  {
    var g := Regrouped(ord, m);
    if g.None? then Outside else Settled(ord, g.value)
  }

  /** While the marks stand in order this is the exchange of the scanner. */
  lemma ExchangedInOrder(m: Marks)
    requires 0 <= m.first <= m.last <= m.optind <= |m.argv|
    ensures Exchanged(m) ==
      Some(Marks(Swapped(m.argv, m.first, m.last, m.optind), m.first + (m.optind - m.last), m.optind, m.optind))
  {
    hide Reversal, Swapped;
    var to := m.first + (m.optind - m.last);
    FlipInside(m.argv, m.first, m.optind);
    var a := Reversal(m.argv, m.first, m.optind);
    FlipInside(a, m.first, to);
    FlipInside(Reversal(a, m.first, to), to, m.optind);
    ThreeReversals(m.argv, m.first, m.last, m.optind);
  }

  lemma FlipInside(s: seq<string>, lo: nat, hi: nat)
    requires lo <= hi <= |s|
    ensures Flip(s, lo, hi) == Some(Reversal(s, lo, hi))
  {
    if hi - lo <= 1 {
      forall i | 0 <= i < |s| ensures Reversal(s, lo, hi)[i] == s[i] {
        ReversalAt(s, lo, hi, i);
      }
      assert Reversal(s, lo, hi) == s;
    }
  }

  // ---------------------------------------------------------------- elements are kept

  ghost predicate DrawnFrom(r: seq<string>, s: seq<string>) { forall i :: 0 <= i < |r| ==> r[i] in s }

  lemma FlipAmong(s: seq<string>, lo: int, hi: int)
    ensures Flip(s, lo, hi).Some? ==> DrawnFrom(Flip(s, lo, hi).value, s)
  {
    hide Reversal;
    if hi - lo > 1 && 0 <= lo && hi <= |s| {
      var r := Reversal(s, lo, hi);
      forall i | 0 <= i < |r| ensures r[i] in s {
        ReversalAt(s, lo, hi, i);
      }
    }
  }

  lemma ExchangedAmong(m: Marks)
    ensures Exchanged(m).Some? ==> DrawnFrom(Exchanged(m).value.argv, m.argv)
  {
    hide Flip;
    if Exchanged(m).Some? {
      var to := m.first + (m.optind - m.last);
      var a := Flip(m.argv, m.first, m.optind).value;
      var b := Flip(a, m.first, to).value;
      FlipAmong(m.argv, m.first, m.optind);
      FlipAmong(a, m.first, to);
      FlipAmong(b, to, m.optind);
    }
  }

  lemma RegroupedAmong(ord: Ordering, m: Marks)
    requires 0 <= m.optind <= |m.argv|
    ensures Regrouped(ord, m).Some? ==> DrawnFrom(Regrouped(ord, m).value.argv, m.argv)
  {
    hide Exchanged, Leading;
    ExchangedAmong(m);
  }

  lemma FurtherAmong(ord: Ordering, m: Marks)
    requires 0 <= m.optind <= |m.argv|
    ensures var a := Further(ord, m); !a.Outside? ==> |a.m.argv| == |m.argv| && DrawnFrom(a.m.argv, m.argv)
    ensures var a := Further(ord, m); a.Reported? ==>
      0 <= a.m.optind < |a.m.argv| && a.m.argv[a.m.optind] != "--"
  {
    hide Regrouped, Exchanged, NonOption;
    RegroupedAmong(ord, m);
    var g := Regrouped(ord, m);
    if g.Some? {
      ExchangedAmong(g.value.(optind := g.value.optind + 1));
    }
  }

  // ---------------------------------------------------------------- marks in order

  /** The abstract scan held by an argument vector: the options processed since the skipped
      non-options belong to the options before them. */
  ghost function ViewOf(all: seq<string>, f: nat, l: nat, o: nat, text: string): Scan
    requires 1 <= f <= l <= o <= |all|
  {
    Scan(all[1..f] + all[l..o], all[f..l], all[o..], text)
  }

  /** Folding does not change the view. */
  lemma FoldView(all: seq<string>, f: nat, l: nat, o: nat, text: string)
    requires 1 <= f <= l <= o <= |all|
    ensures var r := Swapped(all, f, l, o);
      && |r| == |all| && r[0] == all[0] && (o < |all| ==> r[o] == all[o])
      && (forall i :: 0 <= i < |r| ==> r[i] in all)
      && ViewOf(r, f + (o - l), o, o, text) == ViewOf(all, f, l, o, text)
    ensures f == l ==> ViewOf(all, o, o, o, text) == ViewOf(all, f, l, o, text)
  {
    SwapKeeps(all, f, l, o);
    hide Swapped;
    var r := Swapped(all, f, l, o);
    assert o < |all| ==> r[o..][0] == all[o..][0];
    assert f == l ==> all[1..o] == all[1..f] + all[l..o];
  }

  /** Skipping elements moves them to the non-options. */
  lemma SkipView(all: seq<string>, f: nat, start: nat, o: nat)
    requires 1 <= f <= start <= o <= |all|
    ensures var s, k := ViewOf(all, f, start, start, ""), o - start;
      && s.rest == all[start..]
      && ViewOf(all, f, o, o, "") == s.(nonopts := s.nonopts + s.rest[..k], rest := s.rest[k..])
  {
    assert all[f..o] == all[f..start] + all[start..][..o - start];
    assert all[start..][o - start..] == all[o..];
    assert all[o..o] == all[start..start];
  }

  lemma ViewText(all: seq<string>, f: nat, l: nat, o: nat, text: string)
    requires 1 <= f <= l <= o <= |all|
    ensures ViewOf(all, f, l, o, text) == ViewOf(all, f, l, o, "").(text := text)
  {
  }

  lemma ViewFacts(all: seq<string>, f: nat, l: nat, o: nat, text: string)
    requires 1 <= f <= l <= o <= |all|
    ensures var v := ViewOf(all, f, l, o, text);
      && v.text == text && |v.rest| == |all| - o
      && (f == l ==> |v.opts| == o - 1 && v.nonopts == [] && all == [all[0]] + v.opts + v.nonopts + v.rest)
      && (o < |all| ==>
            && v.rest[0] == all[o]
            && ViewOf(all, f, l, o + 1, text) == v.(opts := v.opts + [v.rest[0]], rest := v.rest[1..]))
  {
    if o < |all| {
      assert all[l..o + 1] == all[l..o] + [all[o]];
      assert all[1..f] + (all[l..o] + [all[o]]) == (all[1..f] + all[l..o]) + [all[o]];
    }
  }

  lemma EmptyTails(a0: string, s: Scan)
    ensures [a0] + s.opts + s.nonopts + [] == [a0] + (s.opts + []) + (s.nonopts + [])
    ensures s.rest != [] ==>
      [a0] + (s.opts + ["--"]) + (s.nonopts + s.rest[1..]) + [] == [a0] + (s.opts + ["--"]) + (s.nonopts + s.rest[1..])
    ensures s.opts + [] == s.opts
  {
  }

  /** The vector at the end of the options, in each of the three ways it can come about. */
  lemma StopView(all: seq<string>, f: nat, l: nat, o: nat)
    requires 1 <= f <= l <= o <= |all| && (f == l || l == o)
    ensures var s := ViewOf(all, f, l, o, "");
      if o == |all| then
        && s.rest == []
        && all == [all[0]] + (s.opts + []) + (s.nonopts + [])
        && (if f != l then f else o) == 1 + |s.opts + []|
      else
        && s.rest != []
        && (all[o] == "--" ==>
              var goal := [all[0]] + (s.opts + ["--"]) + (s.nonopts + s.rest[1..]);
              if f != l then Swapped(all, f, l, o + 1) == goal && f + 1 == 1 + |s.opts + ["--"]|
              else all == goal && o + 1 == 1 + |s.opts + ["--"]|)
  {
    if o < |all| && all[o] == "--" {
      DashesSwapped(all, f, l, o);
    }
  }

  lemma DashesSwapped(all: seq<string>, f: nat, l: nat, o: nat)
    requires 1 <= f <= l <= o < |all| && (f == l || l == o) && all[o] == "--"
    ensures var s := ViewOf(all, f, l, o, "");
      var goal := [all[0]] + (s.opts + ["--"]) + (s.nonopts + s.rest[1..]);
      if f != l then Swapped(all, f, l, o + 1) == goal else all == goal
  {
    assert all[o..][1..] == all[o + 1..];
    if f != l {
      assert all[l..l + 1] == ["--"] && all[..f] == [all[0]] + all[1..f];
    } else {
      assert all[1..f] + all[f..o] == all[1..o];
    }
  }

  /** The marks when the end has been reported: nothing was left over, or the non-options are
      marked and `optind` points at the first, or a non-option stopped the scan. */
  predicate AfterEnd(ord: Ordering, argv: seq<string>, first: int, last: int, optind: int) {
    && 1 <= first <= last <= |argv| && 1 <= optind <= |argv|
    && if optind == |argv| then first == last
       else (first == optind && last == |argv|) || (ord.RequireOrder? && NonOption(argv[optind]) && first == last)
  }

  /** The marks between two calls. */
  ghost predicate InOrder(ord: Ordering, m: Marks) {
    1 <= m.first <= m.last <= m.optind <= |m.argv| && (!ord.Permute? ==> m.first == m.last)
  }

  ghost function ViewAt(m: Marks, text: string): Scan
    requires 1 <= m.first <= m.last <= m.optind <= |m.argv|
  {
    ViewOf(m.argv, m.first, m.last, m.optind, text)
  }

  /** Regrouping marks in order moves no option: the scan only skips the non-options ahead. */
  lemma RegroupedInOrder(ord: Ordering, m: Marks)
    requires InOrder(ord, m)
    ensures var r := Regrouped(ord, m);
      && r.Some? && InOrder(ord, r.value) && r.value.argv[0] == m.argv[0]
      && (ord.Permute? ==> r.value.last == r.value.optind)
      && (ord.Permute? && r.value.optind < |m.argv| ==> !NonOption(r.value.argv[r.value.optind]))
      && ViewAt(r.value, "") == Skipped(ord, ViewAt(m, ""))
  {
    hide Regrouped, Folded, NonOption, ViewOf, Leading;
    if ord.Permute? {
      RegroupedFolds(m);
      FoldedTail(m);
      var f := Folded(m);
      var o := m.optind + Leading(f.argv[m.optind..]);
      SkipView(f.argv, f.first, m.optind, o);
      if o < |m.argv| {
        assert f.argv[m.optind..][o - m.optind] == f.argv[o];
      }
    } else {
      NotRegrouped(ord, m);
      SkipNothing(ViewAt(m, ""));
    }
  }

  lemma NotRegrouped(ord: Ordering, m: Marks)
    requires !ord.Permute? && 0 <= m.optind <= |m.argv|
    ensures Regrouped(ord, m) == Some(m)
  {
  }

  lemma RegroupedFolds(m: Marks)
    requires 1 <= m.first <= m.last <= m.optind <= |m.argv|
    ensures var f := Folded(m);
      && |f.argv| == |m.argv|
      && var o := m.optind + Leading(f.argv[m.optind..]); Regrouped(Permute, m) == Some(f.(last := o, optind := o))
  {
    hide Exchanged, Swapped, Leading;
    SwappedLength(m.argv, m.first, m.last, m.optind);
    ExchangedInOrder(m);
  }

  /** The marks after the regrouping alone. */
  function Folded(m: Marks): Marks
    requires 1 <= m.first <= m.last <= m.optind <= |m.argv|
  {
    if m.first != m.last && m.last != m.optind then
      Marks(Swapped(m.argv, m.first, m.last, m.optind), m.first + (m.optind - m.last), m.optind, m.optind)
    else Marks(m.argv, if m.last != m.optind then m.optind else m.first, m.optind, m.optind)
  }

  lemma FoldedTail(m: Marks)
    requires 1 <= m.first <= m.last <= m.optind <= |m.argv|
    ensures var f := Folded(m);
      && |f.argv| == |m.argv| && f.argv[0] == m.argv[0] && 1 <= f.first <= f.last == f.optind == m.optind
      && ViewAt(f, "") == ViewAt(m, "")
  {
    hide ViewOf, Swapped;
    FoldView(m.argv, m.first, m.last, m.optind, "");
  }

  lemma SkipNothing(s: Scan)
    ensures s.(nonopts := s.nonopts + s.rest[..0], rest := s.rest[0..]) == s
  {
    assert s.nonopts + s.rest[..0] == s.nonopts && s.rest[0..] == s.rest;
  }

  /** The rest of a call settles what the abstract scan settles, and does not leave the vector. */
  lemma SettledInOrder(t: Table, ord: Ordering, m: Marks)
    requires InOrder(ord, m) && (ord.Permute? ==> m.last == m.optind)
    requires ord.Permute? && m.optind < |m.argv| ==> !NonOption(m.argv[m.optind])
    ensures var s := ViewAt(m, ""); var c := Settle(t, ord, s);
      match Settled(ord, m)
      case Outside => false
      case Eof(e) =>
        && c.End? && e.argv == [m.argv[0]] + c.s.opts + c.s.nonopts + c.s.rest && e.optind == 1 + |c.s.opts|
        && AfterEnd(ord, e.argv, e.first, e.last, e.optind)
      case Reported(e) =>
        && e == m && m.optind < |m.argv| && s.rest != [] && s.rest[0] == m.argv[m.optind] != "--"
        && (NonOption(s.rest[0]) ==> !ord.RequireOrder?)
  {
    hide Exchanged, Swapped, ViewOf, Consume;
    var s := ViewAt(m, "");
    ViewFacts(m.argv, m.first, m.last, m.optind, "");
    StopView(m.argv, m.first, m.last, m.optind);
    EmptyTails(m.argv[0], s);
    if m.optind < |m.argv| {
      ExchangedInOrder(m.(optind := m.optind + 1));
    }
  }

  /** For marks in order the start of a call is that of the abstract call. */
  lemma FurtherInOrder(t: Table, ord: Ordering, m: Marks)
    requires InOrder(ord, m)
    ensures var c := Call(t, ord, ViewAt(m, ""));
      match Further(ord, m)
      case Outside => false
      case Eof(e) =>
        && c.End? && e.argv == [m.argv[0]] + c.s.opts + c.s.nonopts + c.s.rest && e.optind == 1 + |c.s.opts|
        && AfterEnd(ord, e.argv, e.first, e.last, e.optind)
      case Reported(e) =>
        && InOrder(ord, e) && e.argv[0] == m.argv[0] && |e.argv| == |m.argv| && e.optind < |e.argv|
        && var elem := e.argv[e.optind];
        && elem != "--"
        && if NonOption(elem) then
             && InOrder(ord, e.(optind := e.optind + 1))
             && c == Got(Event(1, Some(elem), None), ViewAt(e.(optind := e.optind + 1), ""))
           else
             && TextOf(t, elem) != ""
             && var s := ViewAt(e, TextOf(t, elem));
             && s.rest != [] && s.rest[0] == elem
             && c == Got(Consume(t, s).0, Consume(t, s).1)
  {
    hide Regrouped, Settled, Skipped, Consume, ViewOf, NonOption, AfterEnd;
    RegroupedInOrder(ord, m);
    var g := Regrouped(ord, m).value;
    SettledInOrder(t, ord, g);
    NoText(ord, m);
    if Settled(ord, g).Reported? {
      var s := ViewAt(g, "");
      ViewFacts(g.argv, g.first, g.last, g.optind, "");
      if !NonOption(s.rest[0]) {
        EnterElement(t, ord, s);
        ViewText(g.argv, g.first, g.last, g.optind, TextOf(t, s.rest[0]));
      }
    }
  }

  lemma NoText(ord: Ordering, m: Marks)
    requires InOrder(ord, m)
    ensures ViewAt(m, "").text == "" && Skipped(ord, ViewAt(m, "")).text == ""
  {
  }

  // ---------------------------------------------------------------- a whole call

  /** The marks, the text left and what is reported. */
  datatype Step = Step(m: Marks, text: string, e: Event)

  /** The call stays inside the vector. */
  ghost predicate Inside(ord: Ordering, m: Marks, text: string) {
    && 0 <= m.optind <= |m.argv|
    && if text != "" then m.optind < |m.argv| else !Further(ord, m).Outside?
  }

  /** An option read at `optind`. */
  function ReadAt(t: Table, m: Marks, text: string): Step
    requires 0 <= m.optind < |m.argv| && text != ""
  {
    var r := ReadOption(t, m.argv[m.optind], text, m.optind + 1 < |m.argv|);
    Step(m.(optind := m.optind + r.advance), r.rest,
         Event(r.code,
               match r.arg
               case NoArg => None case Inline(s) => Some(s) case NextElement => Some(m.argv[m.optind + 1]),
               r.longind))
  }

  /** A call of `_getopt_internal` after the first, for any marks. */
  ghost function CallAt(t: Table, ord: Ordering, m: Marks, text: string): Step
    requires Inside(ord, m, text)
  {
    if text != "" then ReadAt(t, m, text)
    else
      match Further(ord, m)
      case Eof(e) => Step(e, "", Event(EOF, None, None))
      case Reported(e) =>
        FurtherAmong(ord, m);
        var elem := e.argv[e.optind];
        if NonOption(elem) then Step(e.(optind := e.optind + 1), "", Event(1, Some(elem), None))
        else
          OptionHasText(t, elem);
          ReadAt(t, e, TextOf(t, elem))
  }

  lemma OptionHasText(t: Table, elem: string)
    requires !NonOption(elem) && elem != "--"
    ensures TextOf(t, elem) != ""
  {
    assert |elem| == 2 && elem[0] == '-' && elem[1] == '-' ==> elem == "--";
  }

  /** One reading, seen on the vector. */
  lemma ConsumeView(t: Table, all: seq<string>, f: nat, l: nat, at: nat, text: string)
    requires 1 <= f <= l <= at < |all| && (IsLong(t, all[at]) || text != "")
    ensures var r := ReadOption(t, all[at], text, at + 1 < |all|);
      Consume(t, ViewOf(all, f, l, at, text)) ==
        (Event(r.code,
               match r.arg case NoArg => None case Inline(s) => Some(s) case NextElement => Some(all[at + 1]),
               r.longind),
         ViewOf(all, f, l, at + r.advance, r.rest))
  {
    hide ReadOption;
    var r := ReadOption(t, all[at], text, at + 1 < |all|);
    var to := at + r.advance;
    assert all[l..to] == all[l..at] + all[at..to] && all[at..][..to - at] == all[at..to];
    assert all[1..f] + (all[l..at] + all[at..to]) == (all[1..f] + all[l..at]) + all[at..to];
    assert all[to..] == all[at..][to - at..];
  }

  /** The element the text belongs to. */
  ghost predicate TextBelongs(m: Marks, text: string) {
    text != "" ==> 0 <= m.optind < |m.argv| && !NonOption(m.argv[m.optind]) && m.argv[m.optind] != "--"
  }

  lemma ReadInOrder(t: Table, ord: Ordering, m: Marks, text: string)
    requires InOrder(ord, m) && text != "" && TextBelongs(m, text)
    ensures var step := ReadAt(t, m, text); var s := ViewAt(m, text);
      && s.rest != [] && s.rest[0] == m.argv[m.optind]
      && InOrder(ord, step.m) && TextBelongs(step.m, step.text) && step.m.argv == m.argv
      && Consume(t, s) == (step.e, ViewAt(step.m, step.text))
  {
    hide ReadOption, Consume, ViewOf;
    ViewFacts(m.argv, m.first, m.last, m.optind, text);
    ConsumeView(t, m.argv, m.first, m.last, m.optind, text);
  }

  /** For marks in order a call is a call of the abstract scan. */
  lemma CallInOrder(t: Table, ord: Ordering, m: Marks, text: string)
    requires InOrder(ord, m) && TextBelongs(m, text)
    ensures Inside(ord, m, text) && (ViewAt(m, text).text != "" ==> ViewAt(m, text).rest != [])
    ensures var step := CallAt(t, ord, m, text);
      match Call(t, ord, ViewAt(m, text))
      case Got(e, s) =>
        && InOrder(ord, step.m) && TextBelongs(step.m, step.text) && step.m.argv[0] == m.argv[0]
        && |step.m.argv| == |m.argv| && ViewAt(step.m, step.text) == s && step.e == e
      case End(s) =>
        && step.e == Event(EOF, None, None) && step.text == ""
        && step.m.argv == [m.argv[0]] + s.opts + s.nonopts + s.rest && step.m.optind == 1 + |s.opts|
        && AfterEnd(ord, step.m.argv, step.m.first, step.m.last, step.m.optind)
  {
    hide Further, Consume, ViewOf, NonOption, AfterEnd, ReadAt, Settle, Skipped, TextBelongs;
    ViewFacts(m.argv, m.first, m.last, m.optind, text);
    if text != "" {
      ReadInOrder(t, ord, m, text);
    } else {
      FurtherInOrder(t, ord, m);
      var a := Further(ord, m);
      if a.Reported? && !NonOption(a.m.argv[a.m.optind]) {
        FoundText(t, a.m);
        ReadInOrder(t, ord, a.m, TextOf(t, a.m.argv[a.m.optind]));
      }
      NothingLeft(CallAt(t, ord, m, text));
    }
  }

  lemma NothingLeft(step: Step)
    ensures step.text == "" ==> TextBelongs(step.m, step.text)
  {
  }

  lemma FoundText(t: Table, m: Marks)
    requires 0 <= m.optind < |m.argv| && !NonOption(m.argv[m.optind]) && m.argv[m.optind] != "--"
    ensures TextBelongs(m, TextOf(t, m.argv[m.optind])) && TextOf(t, m.argv[m.optind]) != ""
  {
    OptionHasText(t, m.argv[m.optind]);
  }
}
