/** When the evaluation of scripts that source each other comes to an end. */
module Scripts {
  import opened Wrappers
  import opened ArgcArgv

  type Text = seq<char>
  type Files = map<Text, Text>
  type Listing = seq<seq<Text>>

  /** Line `k` is reached and sources a script. */
  predicate Live(files: Files, lines: Listing, k: nat) {
    && k < |lines| && Sourced(files, lines[k]).Some?
    && forall i :: 0 <= i < k ==> lines[i] == [] || lines[i][0] != "exit"
  }

  /** The script a live line sources, by name and by its lines. */
  function NameAt(files: Files, lines: Listing, k: nat): Text
    requires Live(files, lines, k)
  {
    lines[k][1]
  }

  function Script(files: Files, name: Text): Listing
    requires name in files
  {
    Lines(FileText(files[name]), 0)
  }

  function Next(files: Files, lines: Listing, k: nat): Listing
    requires Live(files, lines, k)
  {
    Script(files, NameAt(files, lines, k))
  }

  /** Line `ks[0]` sources a script, line `ks[1]` of that another, and so on. */
  predicate Chain(files: Files, lines: Listing, ks: seq<nat>)
    decreases |ks|
  {
    ks == [] || (Live(files, lines, ks[0]) && Chain(files, Next(files, lines, ks[0]), ks[1..]))
  }

  // ---------------------------------------------------------------- depth and chains

  lemma LiveLater(files: Files, lines: Listing, k: nat)
    requires lines != [] && (lines[0] == [] || lines[0][0] != "exit")
    ensures Live(files, lines[1..], k) ==>
      Live(files, lines, k + 1) && Next(files, lines, k + 1) == Next(files, lines[1..], k)
  {
    hide Script, Sourced;
    if Live(files, lines[1..], k) {
      assert lines[1..][k] == lines[k + 1];
      forall i | 0 <= i < k + 1 ensures lines[i] == [] || lines[i][0] != "exit" {
        assert i > 0 ==> lines[1..][i - 1] == lines[i];
      }
    }
  }

  lemma {:induction false} DeepHasChain(files: Files, lines: Listing, depth: nat) returns (ks: seq<nat>)
    requires Run(files, lines, depth).None?
    ensures |ks| == depth + 1 && Chain(files, lines, ks)
    decreases depth, |lines|
  {
    hide Script, Lines, FileText;
    if lines[0] != [] && Nested(files, lines[0], depth).None? {
      if depth == 0 {
        ks := [0];
      } else {
        SourcedLines(files, lines, 0);
        var more := DeepHasChain(files, Next(files, lines, 0), depth - 1);
        ks := [0] + more;
      }
    } else {
      var more := DeepHasChain(files, lines[1..], depth);
      LiveLater(files, lines, more[0]);
      ks := [more[0] + 1] + more[1..];
    }
  }

  lemma SourcedLines(files: Files, lines: Listing, k: nat)
    requires Live(files, lines, k)
    ensures Lines(Sourced(files, lines[k]).value, 0) == Next(files, lines, k)
    ensures lines[k] != [] && lines[k][0] != "exit"
  {
    hide Lines, FileText;
  }

  lemma {:induction false} ChainIsDeep(files: Files, lines: Listing, ks: seq<nat>)
    requires ks != [] && Chain(files, lines, ks)
    ensures Run(files, lines, |ks| - 1).None?
    decreases |ks|
  {
    hide Run, Sourced, Script, Next;
    SourcedLines(files, lines, ks[0]);
    if |ks| > 1 {
      ChainIsDeep(files, Next(files, lines, ks[0]), ks[1..]);
    }
    Reached(files, lines, ks[0], |ks| - 1);
  }

  /** The scripts nest deeper than `depth` exactly if there is a chain of more than `depth` live
      source lines. */
  lemma DeepIffChain(files: Files, lines: Listing, depth: nat)
    ensures Run(files, lines, depth).None? <==> exists ks :: |ks| == depth + 1 && Chain(files, lines, ks)
  {
    hide Run, Chain;
    if Run(files, lines, depth).None? {
      var ks := DeepHasChain(files, lines, depth);
    }
    if exists ks :: |ks| == depth + 1 && Chain(files, lines, ks) {
      var ks :| |ks| == depth + 1 && Chain(files, lines, ks);
      ChainIsDeep(files, lines, ks);
    }
  }

  // ---------------------------------------------------------------- along a chain

  /** The names along a chain, and the lines it leads to. */
  function Names(files: Files, lines: Listing, ks: seq<nat>): (names: seq<Text>)
    requires Chain(files, lines, ks)
    ensures |names| == |ks| && forall i :: 0 <= i < |names| ==> names[i] in files
    decreases |ks|
  {
    if ks == [] then [] else [NameAt(files, lines, ks[0])] + Names(files, Next(files, lines, ks[0]), ks[1..])
  }

  function End(files: Files, lines: Listing, ks: seq<nat>): Listing
    requires Chain(files, lines, ks)
    decreases |ks|
  {
    if ks == [] then lines else End(files, Next(files, lines, ks[0]), ks[1..])
  }

  /** The last name decides where a chain leads. */
  lemma {:induction false} EndByName(files: Files, lines: Listing, ks: seq<nat>)
    requires ks != [] && Chain(files, lines, ks)
    ensures var names := Names(files, lines, ks); End(files, lines, ks) == Script(files, names[|names| - 1])
    decreases |ks|
  {
    hide Live, Script;
    if |ks| > 1 {
      EndByName(files, Next(files, lines, ks[0]), ks[1..]);
    } else {
      assert End(files, Next(files, lines, ks[0]), []) == Next(files, lines, ks[0]);
    }
  }

  lemma {:induction false} Split(files: Files, lines: Listing, ks: seq<nat>, n: nat)
    requires n <= |ks| && Chain(files, lines, ks)
    ensures Chain(files, lines, ks[..n]) && Chain(files, End(files, lines, ks[..n]), ks[n..])
    ensures Names(files, lines, ks[..n]) == Names(files, lines, ks)[..n]
    decreases n
  {
    hide Live, Next, NameAt;
    if n == 0 {
      assert ks[n..] == ks;
    } else {
      Split(files, Next(files, lines, ks[0]), ks[1..], n - 1);
      assert ks[..n][1..] == ks[1..][..n - 1] && ks[n..] == ks[1..][n - 1..];
      assert ks[..n] == [ks[0]] + ks[1..][..n - 1];
    }
  }

  lemma {:induction false} Join(files: Files, lines: Listing, ks: seq<nat>, js: seq<nat>)
    requires Chain(files, lines, ks) && Chain(files, End(files, lines, ks), js)
    ensures Chain(files, lines, ks + js)
    ensures End(files, lines, ks + js) == End(files, End(files, lines, ks), js)
    decreases |ks|
  {
    hide Live, Next;
    if ks == [] {
      assert ks + js == js;
    } else {
      Join(files, Next(files, lines, ks[0]), ks[1..], js);
      assert (ks + js)[1..] == ks[1..] + js;
    }
  }

  // ---------------------------------------------------------------- going round

  lemma {:induction false} Around(files: Files, lines: Listing, loop: seq<nat>, n: nat) returns (ks: seq<nat>)
    requires loop != [] && Chain(files, lines, loop) && End(files, lines, loop) == lines
    ensures |ks| == n && Chain(files, lines, ks)
    decreases n
  {
    hide Live, Chain, End;
    if n <= |loop| {
      Split(files, lines, loop, n);
      ks := loop[..n];
    } else {
      var more := Around(files, lines, loop, n - |loop|);
      Join(files, lines, loop, more);
      ks := loop + more;
    }
  }

  /** A chain that comes to the same script twice can be made as long as one likes. */
  lemma Pump(files: Files, lines: Listing, ks: seq<nat>, i: nat, j: nat, n: nat) returns (js: seq<nat>)
    requires Chain(files, lines, ks) && i < j < |ks|
    requires Names(files, lines, ks)[i] == Names(files, lines, ks)[j]
    ensures |js| == n && Chain(files, lines, js)
  {
    hide Live, Chain, End, Names;
    var start, upto := ks[..i + 1], ks[..j + 1];
    Split(files, lines, ks, i + 1);
    Split(files, lines, ks, j + 1);
    if n <= i + 1 {
      Split(files, lines, ks, n);
      js := ks[..n];
    } else {
      var there := End(files, lines, start);
      EndByName(files, lines, start);
      EndByName(files, lines, upto);
      assert upto[..i + 1] == start;
      Split(files, lines, upto, i + 1);
      Join(files, lines, start, upto[i + 1..]);
      assert start + upto[i + 1..] == upto;
      var more := Around(files, there, upto[i + 1..], n - (i + 1));
      Join(files, lines, start, more);
      js := start + more;
    }
  }

  /** A list longer than the set it is taken from repeats an element. */
  lemma {:induction false} Repeats(s: seq<Text>, keys: set<Text>) returns (i: nat, j: nat)
    requires |s| > |keys| && forall k :: 0 <= k < |s| ==> s[k] in keys
    ensures i < j < |s| && s[i] == s[j]
    decreases |s|
  {
    var last, rest := s[|s| - 1], s[..|s| - 1];
    if last in rest {
      i :| 0 <= i < |rest| && rest[i] == last;
      j := |s| - 1;
    } else {
      i, j := Repeats(rest, keys - {last});
    }
  }

  // ---------------------------------------------------------------- when it ends

  /** A chain on which some script is sourced twice. */
  ghost predicate Circular(files: Files, lines: Listing) {
    exists ks, i, j :: Returns(files, lines, ks, i, j)
  }

  ghost predicate Returns(files: Files, lines: Listing, ks: seq<nat>, i: nat, j: nat) {
    Chain(files, lines, ks) && i < j < |ks| && Names(files, lines, ks)[i] == Names(files, lines, ks)[j]
  }

  ghost predicate Ends(files: Files, lines: Listing) { exists depth: nat :: Run(files, lines, depth).Some? }

  lemma CircularDiverges(files: Files, lines: Listing, ks: seq<nat>, i: nat, j: nat, depth: nat)
    requires Returns(files, lines, ks, i, j)
    ensures Run(files, lines, depth).None?
  {
    hide Run, Chain, Names;
    var js := Pump(files, lines, ks, i, j, depth + 1);
    ChainIsDeep(files, lines, js);
  }

  lemma LongChainReturns(files: Files, lines: Listing, ks: seq<nat>) returns (i: nat, j: nat)
    requires Chain(files, lines, ks) && |ks| > |files|
    ensures Returns(files, lines, ks, i, j)
  {
    hide Chain;
    assert |files.Keys| == |files|;
    i, j := Repeats(Names(files, lines, ks), files.Keys);
  }

  /** Evaluation ends exactly if no chain comes to the same script twice, exactly if no chain is
      longer than the number of files, and exactly if it needs no more depth than that. */
  lemma EndsIff(files: Files, lines: Listing)
    ensures Ends(files, lines) <==> !Circular(files, lines)
    ensures Ends(files, lines) <==> forall ks :: Chain(files, lines, ks) ==> |ks| <= |files|
    ensures Ends(files, lines) <==> Run(files, lines, |files|).Some?
  {
    hide Run, Chain, Returns;
    if Run(files, lines, |files|).None? {
      var ks := DeepHasChain(files, lines, |files|);
      var i, j := LongChainReturns(files, lines, ks);
    }
    forall ks | Chain(files, lines, ks) && |ks| > |files| ensures Circular(files, lines) {
      var i, j := LongChainReturns(files, lines, ks);
    }
    if Circular(files, lines) {
      var ks, i, j :| Returns(files, lines, ks, i, j);
      forall depth: nat ensures Run(files, lines, depth).None? {
        CircularDiverges(files, lines, ks, i, j, depth);
      }
    }
  }

  lemma Longer(files: Files, lines: Listing, k: nat, ks: seq<nat>)
    requires Live(files, lines, k) && Chain(files, Next(files, lines, k), ks)
    ensures Chain(files, lines, [k] + ks)
    ensures Names(files, lines, [k] + ks) == [NameAt(files, lines, k)] + Names(files, Next(files, lines, k), ks)
  {
    hide Live, Next, NameAt;
    assert ([k] + ks)[1..] == ks;
  }

  /** In particular a script that reaches a line sourcing itself does not come back. */
  lemma SelfSourceDiverges(files: Files, lines: Listing, k: nat)
    requires Live(files, lines, k) && Next(files, lines, k) == lines
    ensures !Ends(files, lines)
  {
    hide Live, Next, NameAt;
    Longer(files, lines, k, []);
    Longer(files, lines, k, [k] + []);
    assert Returns(files, lines, [k] + ([k] + []), 0, 1);
    hide Returns;
    EndsIff(files, lines);
  }

  /** And two scripts that reach a line sourcing the other. */
  lemma MutualSourceDiverges(files: Files, lines: Listing, k: nat, j: nat)
    requires Live(files, lines, k) && Live(files, Next(files, lines, k), j)
    requires Next(files, Next(files, lines, k), j) == lines
    ensures !Ends(files, lines)
  {
    hide Live, Next, NameAt;
    var other := Next(files, lines, k);
    Longer(files, lines, k, []);
    Longer(files, other, j, [k] + []);
    Longer(files, lines, k, [j] + ([k] + []));
    assert Returns(files, lines, [k] + ([j] + ([k] + [])), 0, 2);
    hide Returns;
    EndsIff(files, lines);
  }

  // ---------------------------------------------------------------- what is run

  predicate IsExit(line: seq<Text>) { line != [] && line[0] == "exit" }

  ghost predicate NoExit(lines: Listing) { forall i :: 0 <= i < |lines| ==> !IsExit(lines[i]) }

  /** One run after another. */
  function Then(a: Option<Listing>, b: Option<Listing>): Option<Listing> {
    if a.None? || b.None? then None else Some(a.value + b.value)
  }

  lemma ThenThen(a: Option<Listing>, b: Option<Listing>, c: Option<Listing>)
    ensures Then(Then(a, b), c) == Then(a, Then(b, c))
  {
    if a.Some? && b.Some? && c.Some? {
      assert a.value + b.value + c.value == a.value + (b.value + c.value);
    }
  }

  /** The first line and the rest. */
  lemma RunFirst(files: Files, lines: Listing, depth: nat)
    requires lines != [] && !IsExit(lines[0])
    ensures Run(files, lines, depth) == Then(Run(files, lines[..1], depth), Run(files, lines[1..], depth))
  {
    hide Nested;
    var line, one, rest := lines[0], lines[..1], Run(files, lines[1..], depth);
    assert one[1..] == [] && Run(files, [], depth) == Some([]);
    if line == [] {
      assert Run(files, one, depth) == Some([]);
      assert rest.Some? ==> [] + rest.value == rest.value;
    } else {
      var nested := Nested(files, line, depth);
      if nested.Some? && rest.Some? {
        assert [line] + nested.value + [] == [line] + nested.value;
      }
    }
  }

  /** Lines without an exit are run before the lines behind them. */
  lemma {:induction false} RunSplits(files: Files, a: Listing, b: Listing, depth: nat)
    requires NoExit(a)
    ensures Run(files, a + b, depth) == Then(Run(files, a, depth), Run(files, b, depth))
    decreases |a|
  {
    hide Run;
    if a == [] {
      assert a + b == b;
      RunNothing(files, b, depth);
    } else {
      RunFirst(files, a + b, depth);
      RunFirst(files, a, depth);
      assert (a + b)[..1] == a[..1] && (a + b)[1..] == a[1..] + b;
      RunSplits(files, a[1..], b, depth);
      ThenThen(Run(files, a[..1], depth), Run(files, a[1..], depth), Run(files, b, depth));
    }
  }

  lemma RunNothing(files: Files, b: Listing, depth: nat)
    ensures Then(Run(files, [], depth), Run(files, b, depth)) == Run(files, b, depth)
  {
    var r := Run(files, b, depth);
    assert r.Some? ==> [] + r.value == r.value;
  }

  /** An exit is the last line run. */
  lemma ExitStops(files: Files, a: Listing, exit: seq<Text>, b: Listing, depth: nat)
    requires NoExit(a) && exit != [] && exit[0] == "exit"
    ensures Run(files, a + [exit] + b, depth) == Then(Run(files, a, depth), Some([exit]))
  {
    assert a + [exit] + b == a + ([exit] + b);
    RunSplits(files, a, [exit] + b, depth);
    assert Run(files, [exit] + b, depth) == Some([exit]);
  }

  /** A line with no words is not run; any other that sources nothing is run alone. */
  lemma LineRuns(files: Files, line: seq<Text>, depth: nat)
    requires !(|line| == 2 && line[0] == "source" && line[1] in files)
    ensures Run(files, [line], depth) == if line == [] then Some([]) else Some([line])
  {
    assert [line][1..] == [] && [line] + [] + [] == [line];
    assert Run(files, [], depth) == Some([]);
  }

  /** A line of two words, source and the name of a file, is run and then the text of that file up
      to its first terminator; an exit in there ends that text only. */
  lemma SourceRuns(files: Files, name: Text, depth: nat)
    requires name in files && depth > 0
    ensures Run(files, [["source", name]], depth) ==
      Then(Some([["source", name]]), Run(files, Lines(FileText(files[name]), 0), depth - 1))
  {
    hide Lines, FileText;
    var line := ["source", name];
    assert [line][1..] == [];
    assert Run(files, [], depth) == Some([]);
    var nested := Run(files, Lines(FileText(files[name]), 0), depth - 1);
    if nested.Some? {
      assert [line] + nested.value + [] == [line] + nested.value;
    }
  }
}
