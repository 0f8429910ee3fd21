/** GNU `getopt`: a scan that can be resumed, permuting the command line in place so that
    the options come first.  A whole run is proved to be the stable partition of `Options`.
 */
module Getopt {
  import opened Wrappers
  import opened Options

  const EOF := -1

  /** The scan without its array: options done, non-options skipped, elements not reached,
      and the unread text of the element at the head of `rest`. */
  datatype Scan = Scan(opts: seq<string>, nonopts: seq<string>, rest: seq<string>, text: string)

  predicate ScanOk(s: Scan) {
    s.text != "" ==> s.rest != [] && !NonOption(s.rest[0]) && s.rest[0] != "--"
  }

  /** The non-options at the head of a list. */
  function Leading(rest: seq<string>): (k: nat)
    ensures k <= |rest|
    ensures forall i :: 0 <= i < k ==> NonOption(rest[i])
    ensures k < |rest| ==> !NonOption(rest[k])
  {
    if rest == [] || !NonOption(rest[0]) then 0 else 1 + Leading(rest[1..])
  }

  /** One call, when text is left or has just been found. */
  function Consume(t: Table, s: Scan): (Event, Scan)
    requires s.rest != [] && (IsLong(t, s.rest[0]) || s.text != "")
  {
    var r := ReadOption(t, s.rest[0], s.text, |s.rest| > 1);
    (EventOf(r, s.rest), Scan(s.opts + s.rest[..r.advance], s.nonopts, s.rest[r.advance..], r.rest))
  }

  datatype Outcome = End(s: Scan) | Got(e: Event, s: Scan)

  /** In PERMUTE order the non-options ahead are passed over first. */
  function Skipped(ord: Ordering, s: Scan): Scan {
    var k := if ord.Permute? then Leading(s.rest) else 0;
    s.(nonopts := s.nonopts + s.rest[..k], rest := s.rest[k..])
  }

  /** The next element decides how the call goes on. */
  function Settle(t: Table, ord: Ordering, s: Scan): Outcome
    requires s.text == ""
  {
    if s.rest == [] then End(s)
    else if s.rest[0] == "--" then End(Scan(s.opts + ["--"], s.nonopts + s.rest[1..], [], ""))
    else if NonOption(s.rest[0]) then
      if ord.RequireOrder? then End(s)
      else Got(Event(1, Some(s.rest[0]), None), s.(opts := s.opts + [s.rest[0]], rest := s.rest[1..]))
    else
      var (e, s') := Consume(t, s.(text := TextOf(t, s.rest[0])));
      Got(e, s')
  }

  /** One call of `getopt` on the abstract scan. */
  function Call(t: Table, ord: Ordering, s: Scan): Outcome
    requires s.text != "" ==> s.rest != []
  {
    if s.text != "" then
      var (e, s') := Consume(t, s);
      Got(e, s')
    else Settle(t, ord, Skipped(ord, s))
  }

  // ---------------------------------------------------------------- the whole run, abstractly

  /** What is still to come of the two parts. */
  function PartsLeft(t: Table, ord: Ordering, s: Scan): (seq<string>, seq<string>)
    requires ScanOk(s)
  {
    if s.text == "" then Partition(t, ord, s.rest)
    else
      var k := ReadElement(t, s.rest, s.text).1;
      var (o, n) := Partition(t, ord, s.rest[k..]);
      (s.rest[..k] + o, n)
  }

  function EventsLeft(t: Table, ord: Ordering, s: Scan): seq<Event>
    requires ScanOk(s)
  {
    if s.text == "" then Events(t, ord, s.rest)
    else
      var (es, k) := ReadElement(t, s.rest, s.text);
      es + Events(t, ord, s.rest[k..])
  }

  lemma {:induction false} SkipLeading(t: Table, rest: seq<string>)
    ensures var k := Leading(rest);
      && Partition(t, Permute, rest).0 == Partition(t, Permute, rest[k..]).0
      && Partition(t, Permute, rest).1 == rest[..k] + Partition(t, Permute, rest[k..]).1
      && Events(t, Permute, rest) == Events(t, Permute, rest[k..])
  {
    hide ReadElement, Partition, Events;
    var k := Leading(rest);
    if k == 0 {
      assert rest[0..] == rest;
    } else {
      PassOne(t, rest);
      SkipLeading(t, rest[1..]);
      assert rest[1..][k - 1..] == rest[k..];
      var n := Partition(t, Permute, rest[k..]).1;
      assert [rest[0]] + (rest[1..][..k - 1] + n) == rest[..k] + n;
    }
  }

  lemma PassOne(t: Table, rest: seq<string>)
    requires rest != [] && NonOption(rest[0])
    ensures Partition(t, Permute, rest).0 == Partition(t, Permute, rest[1..]).0
    ensures Partition(t, Permute, rest).1 == [rest[0]] + Partition(t, Permute, rest[1..]).1
    ensures Events(t, Permute, rest) == Events(t, Permute, rest[1..])
  {
    hide ReadElement;
    assert rest[0] != "--";
    var es := Events(t, Permute, rest[1..]);
    assert [] + es == es;
  }

  /** The measure of unread text: it shrinks with every call that does not end the scan. */
  function Unread(s: Scan): (nat, nat) {
    (|s.rest|, if s.text != "" then |s.text| else if s.rest != [] then |s.rest[0]| else 0)
  }

  predicate Less(a: (nat, nat), b: (nat, nat)) { a.0 < b.0 || (a.0 == b.0 && a.1 < b.1) }

  /** Moving from `s` to `s'` leaves the two parts of the whole run as they are. */
  ghost predicate SameParts(t: Table, ord: Ordering, s: Scan, s': Scan)
    requires ScanOk(s) && ScanOk(s')
  {
    && s.opts + PartsLeft(t, ord, s).0 == s'.opts + PartsLeft(t, ord, s').0
    && s.nonopts + PartsLeft(t, ord, s).1 == s'.nonopts + PartsLeft(t, ord, s').1
  }

  /** The rest of an element after its first option. */
  lemma ReadUnfold(t: Table, rest: seq<string>, text: string)
    requires rest != [] && !NonOption(rest[0]) && text != ""
    ensures var r := ReadOption(t, rest[0], text, |rest| > 1);
      ReadElement(t, rest, text) ==
        if r.advance > 0 then ([EventOf(r, rest)], r.advance)
        else ([EventOf(r, rest)] + ReadElement(t, rest, r.rest).0, ReadElement(t, rest, r.rest).1)
  {
    hide ReadOption, EventOf;
  }

  lemma ConsumeScan(t: Table, s: Scan)
    requires ScanOk(s) && s.text != ""
    ensures var s' := Consume(t, s).1; ScanOk(s') && Less(Unread(s'), (|s.rest|, |s.text|))
  {
    hide ReadOption, EventOf;
  }

  lemma ConsumeParts(t: Table, ord: Ordering, s: Scan)
    requires ScanOk(s) && s.text != "" && ScanOk(Consume(t, s).1)
    ensures SameParts(t, ord, s, Consume(t, s).1)
  {
    hide Partition, ReadOption, EventOf, ReadElement;
    ReadUnfold(t, s.rest, s.text);
    var r := ReadOption(t, s.rest[0], s.text, |s.rest| > 1);
    var s' := Consume(t, s).1;
    if r.advance == 0 {
      assert s'.rest == s.rest && s'.opts == s.opts;
    } else {
      var o := PartsLeft(t, ord, s').0;
      assert s'.opts + o == s.opts + (s.rest[..r.advance] + o);
    }
  }

  lemma ConsumeEvents(t: Table, ord: Ordering, s: Scan)
    requires ScanOk(s) && s.text != "" && ScanOk(Consume(t, s).1)
    ensures EventsLeft(t, ord, s) == [Consume(t, s).0] + EventsLeft(t, ord, Consume(t, s).1)
  {
    hide Events, ReadOption, EventOf, ReadElement;
    ReadUnfold(t, s.rest, s.text);
    var r := ReadOption(t, s.rest[0], s.text, |s.rest| > 1);
    if r.advance == 0 {
      assert Consume(t, s).1.rest == s.rest;
      var (es, k) := ReadElement(t, s.rest, r.rest);
      var more := Events(t, ord, s.rest[k..]);
      assert ([EventOf(r, s.rest)] + es) + more == [EventOf(r, s.rest)] + (es + more);
    }
  }

  lemma ConsumeStep(t: Table, ord: Ordering, s: Scan)
    requires ScanOk(s) && s.text != ""
    ensures var (e, s') := Consume(t, s);
      && ScanOk(s') && SameParts(t, ord, s, s')
      && EventsLeft(t, ord, s) == [e] + EventsLeft(t, ord, s')
      && Less(Unread(s'), (|s.rest|, |s.text|))
  {
    hide Consume, SameParts, EventsLeft;
    ConsumeScan(t, s);
    ConsumeParts(t, ord, s);
    ConsumeEvents(t, ord, s);
  }

  /** The two parts of a scan whose head is an option element are those of its text. */
  lemma EnterElement(t: Table, ord: Ordering, s: Scan)
    requires s.text == "" && s.rest != [] && !NonOption(s.rest[0]) && s.rest[0] != "--"
    ensures var s1 := s.(text := TextOf(t, s.rest[0]));
      && s1.text != "" && |s1.text| < |s.rest[0]| && ScanOk(s1)
      && PartsLeft(t, ord, s1) == PartsLeft(t, ord, s)
      && EventsLeft(t, ord, s1) == EventsLeft(t, ord, s)
  {
    hide ReadElement;
    var e := s.rest[0];
    assert |e| == 2 && e[0] == '-' && e[1] == '-' ==> e == "--";
  }

  lemma SkipStep(t: Table, ord: Ordering, s: Scan)
    requires s.text == ""
    ensures var s1 := Skipped(ord, s);
      && s1.text == "" && (ord.Permute? && s1.rest != [] ==> !NonOption(s1.rest[0]))
      && SameParts(t, ord, s, s1)
      && EventsLeft(t, ord, s) == EventsLeft(t, ord, s1)
      && (s1 == s || Less(Unread(s1), Unread(s)))
  {
    hide Partition, Events;
    SkipLeading(t, s.rest);
    var k := if ord.Permute? then Leading(s.rest) else 0;
    var s1 := Skipped(ord, s);
    var n := PartsLeft(t, ord, s1).1;
    assert s1.nonopts + n == s.nonopts + (s.rest[..k] + n);
    if k == 0 {
      assert s.rest[0..] == s.rest && s1 == s;
    }
  }

  /** What one call does to the scan, however it ends. */
  ghost predicate CallIs(t: Table, ord: Ordering, s: Scan, c: Outcome)
    requires ScanOk(s)
  {
    && ScanOk(c.s) && SameParts(t, ord, s, c.s)
    && (c.Got? ==> EventsLeft(t, ord, s) == [c.e] + EventsLeft(t, ord, c.s) && Less(Unread(c.s), Unread(s)))
    && (c.End? ==> c.s.text == "" && PartsLeft(t, ord, c.s) == ([], c.s.rest) && EventsLeft(t, ord, s) == [])
  }

  /** The next element, once the non-options to pass over are behind. */
  lemma FoundKeeps(t: Table, ord: Ordering, s: Scan)
    requires s.text == "" && (ord.Permute? && s.rest != [] ==> !NonOption(s.rest[0]))
    ensures CallIs(t, ord, s, Settle(t, ord, s))
  {
    if s.rest != [] && s.rest[0] != "--" && !NonOption(s.rest[0]) {
      hide PartsLeft, EventsLeft, Consume;
      EnterElement(t, ord, s);
      ConsumeStep(t, ord, s.(text := TextOf(t, s.rest[0])));
    } else {
      NoOptionAhead(t, ord, s);
    }
  }

  lemma NoOptionAhead(t: Table, ord: Ordering, s: Scan)
    requires s.text == "" && (s.rest == [] || s.rest[0] == "--" || (NonOption(s.rest[0]) && !ord.Permute?))
    ensures CallIs(t, ord, s, Settle(t, ord, s))
  {
    hide ReadElement, Consume;
    if s.rest == [] {
    } else if s.rest[0] == "--" {
      assert (s.nonopts + s.rest[1..]) + [] == s.nonopts + s.rest[1..];
    } else if ord.ReturnInOrder? {
      var (o, n) := Partition(t, ord, s.rest[1..]);
      assert s.opts + ([s.rest[0]] + o) == (s.opts + [s.rest[0]]) + o;
    }
  }

  lemma SamePartsTrans(t: Table, ord: Ordering, a: Scan, b: Scan, c: Scan)
    requires ScanOk(a) && ScanOk(b) && ScanOk(c)
    requires SameParts(t, ord, a, b) && SameParts(t, ord, b, c)
    ensures SameParts(t, ord, a, c)
  {
    hide PartsLeft;
  }

  /** Each call, in each of the three orderings, keeps what the whole run will produce, and reads
      something unless it ends the scan. */
  lemma CallKeeps(t: Table, ord: Ordering, s: Scan)
    requires ScanOk(s)
    ensures CallIs(t, ord, s, Call(t, ord, s))
  {
    hide SameParts, EventsLeft, Consume, Settle, PartsLeft;
    if s.text != "" {
      ConsumeStep(t, ord, s);
    } else {
      var s1 := Skipped(ord, s);
      SkipStep(t, ord, s);
      FoundKeeps(t, ord, s1);
      SamePartsTrans(t, ord, s, s1, Call(t, ord, s).s);
    }
  }

  // ---------------------------------------------------------------- two tables

  /** What a run of calls produces when only the first sees the option letters `first`, because
      only it skips a leading mode character: the two parts and the events. */
  ghost function Whole(first: Table, later: Table, ord: Ordering, rest: seq<string>)
    : (seq<string>, seq<string>, seq<Event>)
  {
    var s := Scan([], [], rest, "");
    CallKeeps(first, ord, s);
    match Call(first, ord, s)
    case End(s) => (s.opts, s.nonopts + s.rest, [])
    case Got(e, s) =>
      var (o, n) := PartsLeft(later, ord, s);
      (s.opts + o, s.nonopts + n, [e] + EventsLeft(later, ord, s))
  }

  /** Without a mode character the run is the partition of the command line. */
  lemma WholeIsPartition(t: Table, ord: Ordering, rest: seq<string>)
    ensures Whole(t, t, ord, rest) == (Partition(t, ord, rest).0, Partition(t, ord, rest).1, Events(t, ord, rest))
  {
    hide Partition, Events, Call;
    var s := Scan([], [], rest, "");
    CallKeeps(t, ord, s);
    var (o, n) := Partition(t, ord, rest);
    assert [] + o == o && [] + n == n;
    var c := Call(t, ord, s);
    if c.End? {
      assert c.s.opts + [] == c.s.opts;
    }
  }
}
