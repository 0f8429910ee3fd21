/** Calls of `getopt` after it has reported the end.  The marks it leaves then stand the other way
    round, and the exchange at the start of the next call moves elements it should not touch. */
module GetoptAgain {
  import opened Wrappers
  import opened Options
  import opened Getopt
  import opened GetoptMarks

  function Tail(m: Marks): seq<string>
    requires 0 <= m.optind <= |m.argv|
  {
    m.argv[m.optind..]
  }

  /** With the end behind it, `exchange` reverses as many elements as there are non-options, in
      front of them. */
  lemma BackwardExchange(m: Marks)
    requires 0 <= m.first <= m.optind <= |m.argv| && m.optind <= m.first + 1 && m.optind <= m.last
    ensures var to := m.first + (m.optind - m.last);
      Exchanged(m) == var c := Flip(m.argv, to, m.optind); if c.None? then None
                      else Some(Marks(c.value, to, m.optind, m.optind))
  {
  }

  /** The element to report. */
  ghost predicate Points(m: Marks, elem: string) { 0 <= m.optind < |m.argv| && m.argv[m.optind] == elem }

  /** The first of the remaining elements that a further call looks at. */
  function Ahead(ord: Ordering, m: Marks): nat
    requires 0 <= m.optind <= |m.argv|
  {
    if ord.Permute? then Leading(Tail(m)) else 0
  }

  ghost predicate Unchanged(m: Marks, a: Again) { a.Eof? && a.m.argv == m.argv && a.m.optind == m.optind }

  /** PERMUTE with non-options left. */
  lemma PermuteAgain(m: Marks)
    requires AfterEnd(Permute, m.argv, m.first, m.last, m.optind) && Tail(m) != []
    requires Tail(m) == ["--"] ==> m.argv[m.optind - 1] == "--"
    ensures Unchanged(m, Further(Permute, m)) <==> Tail(m) == ["--"]
    ensures Further(Permute, m) == Outside <==> |Tail(m)| > m.optind
    ensures var k := Leading(Tail(m));
      && (Further(Permute, m).Reported? <==> |Tail(m)| <= m.optind && k < |Tail(m)| && Tail(m)[k] != "--")
      && (Further(Permute, m).Reported? ==> Points(Further(Permute, m).m, Tail(m)[k]))
  {
    hide Regrouped, Settled, Swapped;
    var n := |Tail(m)|;
    RegroupedPermute(m);
    if n <= m.optind {
      var g := Regrouped(Permute, m).value;
      SettledPermute(g);
      if n == 1 && Tail(m) == ["--"] {
        SwapSame(m.argv, g.first);
      }
    }
  }

  lemma RegroupedPermute(m: Marks)
    requires AfterEnd(Permute, m.argv, m.first, m.last, m.optind) && Tail(m) != []
    ensures var n, o := |Tail(m)|, m.optind + Leading(Tail(m));
      if n > m.optind then Regrouped(Permute, m).None?
      else
        && var g := Regrouped(Permute, m);
        && g.Some? && g.value == Marks(g.value.argv, m.optind - n, o, o)
        && g.value.argv[m.optind..] == Tail(m) && (n == 1 ==> g.value.argv == m.argv)
  {
    hide Exchanged, NonOption;
    var to := m.optind - |Tail(m)|;
    BackwardExchange(m);
    if to >= 0 {
      FlipKeepsTail(m.argv, to, m.optind);
    }
  }

  lemma FlipKeepsTail(s: seq<string>, lo: nat, hi: nat)
    requires lo <= hi <= |s|
    ensures Flip(s, lo, hi).Some? && Flip(s, lo, hi).value[hi..] == s[hi..]
  {
    hide Reversal;
    forall i | hi <= i < |s| ensures Reversal(s, lo, hi)[i] == s[i] {
      ReversalAt(s, lo, hi, i);
    }
  }

  lemma SettledPermute(m: Marks)
    requires 0 <= m.first < m.last == m.optind <= |m.argv|
    requires m.optind < |m.argv| ==> !NonOption(m.argv[m.optind])
    ensures var a := Settled(Permute, m); var o := m.optind;
      if o == |m.argv| then a.Eof? && a.m.optind == m.first
      else if m.argv[o] == "--" then
        a.Eof? && a.m.optind == m.first + 1 && a.m.argv == Swapped(m.argv, m.first, o, o + 1)
      else a == Reported(m)
  {
    hide Exchanged, Swapped;
    if m.optind < |m.argv| {
      ExchangedInOrder(m.(optind := m.optind + 1));
    }
  }

  lemma SwapSame(s: seq<string>, i: nat)
    requires i + 2 == |s| && s[i] == s[i + 1]
    ensures Swapped(s, i, i + 1, i + 2) == s
  {
  }

  /** The other orderings do not regroup; only a second "--" does. */
  lemma InOrderAgain(ord: Ordering, m: Marks)
    requires !ord.Permute? && AfterEnd(ord, m.argv, m.first, m.last, m.optind) && Tail(m) != []
    ensures Unchanged(m, Further(ord, m)) <==>
      Tail(m) == ["--"] || (ord.RequireOrder? && NonOption(Tail(m)[0]))
    ensures Further(ord, m) == Outside <==> Tail(m)[0] == "--" && |Tail(m)| > m.optind + 1
    ensures Further(ord, m).Reported? <==> Tail(m)[0] != "--" && !(ord.RequireOrder? && NonOption(Tail(m)[0]))
    ensures Further(ord, m).Reported? ==> Points(Further(ord, m).m, Tail(m)[0])
  {
    hide Reversal, Exchanged;
    if Tail(m)[0] == "--" {
      assert !NonOption("--");
      if |Tail(m)| > 1 {
        BackwardExchange(m.(optind := m.optind + 1));
      } else {
        assert Tail(m) == ["--"];
      }
    }
  }

  /** What a call after the end does, by the elements that remain.  For exactly these it reports the
      end again and leaves the vector and `optind` as they are; for these it leaves the vector; and
      for these it reports an element that was not to be an option.  In all other cases it reports
      the end and has moved elements or `optind`. */
  lemma EndIsFinal(ord: Ordering, m: Marks)
    requires AfterEnd(ord, m.argv, m.first, m.last, m.optind)
    requires ord.Permute? && Tail(m) == ["--"] ==> m.argv[m.optind - 1] == "--"
    ensures Unchanged(m, Further(ord, m)) <==>
      Tail(m) == [] || Tail(m) == ["--"] || (ord.RequireOrder? && NonOption(Tail(m)[0]))
    ensures Further(ord, m) == Outside <==>
      if ord.Permute? then |Tail(m)| > m.optind else |Tail(m)| > m.optind + 1 && Tail(m)[0] == "--"
    ensures var k := Ahead(ord, m);
      && (Further(ord, m).Reported? <==>
            && k < |Tail(m)| && Tail(m)[k] != "--" && (ord.Permute? ==> |Tail(m)| <= m.optind)
            && !(ord.RequireOrder? && NonOption(Tail(m)[k])))
      && (Further(ord, m).Reported? ==> Points(Further(ord, m).m, Tail(m)[k]))
  {
    if Tail(m) != [] {
      hide Further;
      if ord.Permute? {
        PermuteAgain(m);
      } else {
        InOrderAgain(ord, m);
      }
    } else {
      assert Leading(Tail(m)) == 0;
    }
  }

  // ---------------------------------------------------------------- in terms of the command line

  /** What looks like an option among the remaining elements stands behind a "--". */
  lemma {:induction false} OptionsBehindDashes(t: Table, ord: Ordering, rest: seq<string>)
    ensures var (o, n) := Partition(t, ord, rest);
      n != [] && !NonOption(n[0]) ==> o != [] && o[|o| - 1] == "--"
    decreases |rest|
  {
    hide ReadElement;
    if rest != [] && rest[0] != "--" {
      if NonOption(rest[0]) {
        OptionsBehindDashes(t, ord, rest[1..]);
      } else {
        OptionsBehindDashes(t, ord, rest[ReadElement(t, rest, TextOf(t, rest[0])).1..]);
      }
    }
  }

  /** After a whole run over `rest`, a further call is harmless exactly if the second part of the
      partition is empty, is a lone "--", or begins with a non-option under REQUIRE_ORDER. */
  lemma SecondEnd(t: Table, ord: Ordering, name: string, rest: seq<string>, m: Marks)
    requires var (o, n) := Partition(t, ord, rest);
      m.argv == [name] + o + n && m.optind == 1 + |o|
    requires AfterEnd(ord, m.argv, m.first, m.last, m.optind)
    ensures var n := Partition(t, ord, rest).1;
      Unchanged(m, Further(ord, m)) <==> n == [] || n == ["--"] || (ord.RequireOrder? && NonOption(n[0]))
  {
    hide Further, Partition;
    var (o, n) := Partition(t, ord, rest);
    OptionsBehindDashes(t, ord, rest);
    assert Tail(m) == n;
    assert m.argv[m.optind - 1] == ([name] + o)[|o|];
    assert !NonOption("--");
    EndIsFinal(ord, m);
  }

  /** `risu a b c`: the call after the end leaves the argument vector. */
  lemma ThreeOperandsLeaveVector(name: string)
    ensures var m := Marks([name, "a", "b", "c"], 1, 4, 1);
      AfterEnd(Permute, m.argv, m.first, m.last, m.optind) && Further(Permute, m) == Outside
  {
    var m := Marks([name, "a", "b", "c"], 1, 4, 1);
    assert Tail(m) == ["a", "b", "c"];
    PermuteAgain(m);
  }
}
