/** Hyper-thread sibling pairs, recorded by mutation of a shared dictionary. */
module Siblings {
  import opened Results
  import opened Ordered
  import opened CpuList

  /** The dictionary that get_topology hands to each sibling file in turn. */
  class SiblingMap {
    var pairs: map<int, int>

    constructor ()
      ensures pairs == map[]
    {
      pairs := map[];
    }
  }

  /** The effect of one parsed sibling list: only two-element lists are recorded. */
  function Record(pairs: map<int, int>, siblings: seq<int>): map<int, int> {
    if |siblings| == 2
    then pairs[siblings[0] := siblings[1]][siblings[1] := siblings[0]]
    else pairs
  }

  /** The dictionary after all lists, the last writer of a core winning. */
  function RecordAll(lists: seq<seq<int>>): map<int, int> {
    if lists == [] then map[] else Record(RecordAll(lists[..|lists| - 1]), lists[|lists| - 1])
  }

  method CollectHyperthreadPairs(siblingsFile: Option<string>, output: SiblingMap) returns (r: Result<()>)
    modifies output
    ensures match siblingsFile
      case None => r == Ok(()) && output.pairs == old(output.pairs)
      case Some(text) =>
        if Parsed(text).Ok?
        then r == Ok(()) && output.pairs == Record(old(output.pairs), Parsed(text).value)
        else r == Err(Parsed(text).error) && output.pairs == old(output.pairs)
  {
    if siblingsFile == None {
      return Ok(());
    }
    var parsed := ParseCpuList(siblingsFile.value);
    if parsed.Err? {
      return Err(parsed.error);
    }
    var siblings := parsed.value;
    if |siblings| != 2 {
      return Ok(());
    }
    var first, second := siblings[0], siblings[1];
    output.pairs := output.pairs[first := second];
    output.pairs := output.pairs[second := first];
    return Ok(());
  }

  // ----- when the recorded map is symmetric

  /** c names a core of the two-element list l. */
  predicate Names(l: seq<int>, c: int) {
    |l| == 2 && c in l
  }

  /** Every recorded core leads to its sibling and back. */
  ghost predicate Symmetric(pairs: map<int, int>) {
    forall c :: c in pairs ==> pairs[c] in pairs && pairs[pairs[c]] == c
  }

  /** The last list naming one of two siblings is also the last list naming the other. */
  ghost predicate Settled(lists: seq<seq<int>>) {
    forall i :: 0 <= i < |lists| && |lists[i]| == 2 ==>
      (NamedLater(lists, i, lists[i][0]) <==> NamedLater(lists, i, lists[i][1]))
  }

  ghost predicate NamedLater(lists: seq<seq<int>>, i: int, c: int) {
    exists j :: i < j < |lists| && 0 <= j && Names(lists[j], c)
  }

  ghost predicate Ascendings(lists: seq<seq<int>>) {
    forall i :: 0 <= i < |lists| ==> StrictlyAscending(lists[i])
  }

  /** Two-element lists that overlap are the same list. */
  ghost predicate EqualOrDisjoint(lists: seq<seq<int>>) {
    forall i, j, c :: 0 <= i < |lists| && 0 <= j < |lists| && Names(lists[i], c) && Names(lists[j], c) ==>
      lists[i] == lists[j]
  }

  /** A recorded core maps to its companion in the last list that names it. */
  lemma {:induction false} RecordedByLast(lists: seq<seq<int>>, c: int) returns (i: int)
    requires Ascendings(lists)
    ensures c in RecordAll(lists) <==> 0 <= i
    ensures c !in RecordAll(lists) ==> !NamedLater(lists, -1, c)
    ensures 0 <= i ==>
      && i < |lists| && Names(lists[i], c) && !NamedLater(lists, i, c)
      && RecordAll(lists)[c] == (if c == lists[i][0] then lists[i][1] else lists[i][0])
      && RecordAll(lists)[c] != c
  {
    if lists == [] {
      i := -1;
    } else {
      var front, last := lists[..|lists| - 1], lists[|lists| - 1];
      assert forall j :: 0 <= j < |front| ==> front[j] == lists[j];
      assert lists[|lists| - 1] == last && StrictlyAscending(last);
      i := RecordedByLast(front, c);
      if Names(last, c) {
        i := |lists| - 1;
      } else {
        assert forall j :: NamedLater(lists, j, c) ==> NamedLater(front, j, c);
      }
    }
  }

  /** The map never pairs a core with itself. */
  lemma NeverOwnSibling(lists: seq<seq<int>>)
    requires Ascendings(lists)
    ensures forall c :: c in RecordAll(lists) ==> RecordAll(lists)[c] != c
  {
    forall c | c in RecordAll(lists) ensures RecordAll(lists)[c] != c {
      var i := RecordedByLast(lists, c);
    }
  }

  /** The map is an involution exactly when the lists are settled. */
  lemma SymmetricIffSettled(lists: seq<seq<int>>)
    requires Ascendings(lists)
    ensures Symmetric(RecordAll(lists)) <==> Settled(lists)
  {
    if Settled(lists) {
      forall c | c in RecordAll(lists)
        ensures var d := RecordAll(lists)[c]; d in RecordAll(lists) && RecordAll(lists)[d] == c
      {
        SettledBackward(lists, c);
      }
    }
    if Symmetric(RecordAll(lists)) {
      SymmetricSettles(lists);
    }
  }

  lemma SymmetricSettles(lists: seq<seq<int>>)
    requires Ascendings(lists) && Symmetric(RecordAll(lists))
    ensures Settled(lists)
  {
    forall i | 0 <= i < |lists| && |lists[i]| == 2
      ensures NamedLater(lists, i, lists[i][0]) <==> NamedLater(lists, i, lists[i][1])
    {
      var c, d := lists[i][0], lists[i][1];
      if !NamedLater(lists, i, c) {
        SymmetricForward(lists, i, c, d);
      } else if !NamedLater(lists, i, d) {
        SymmetricForward(lists, i, d, c);
      }
    }
  }

  lemma SettledBackward(lists: seq<seq<int>>, c: int)
    requires Ascendings(lists) && Settled(lists) && c in RecordAll(lists)
    ensures var d := RecordAll(lists)[c]; d in RecordAll(lists) && RecordAll(lists)[d] == c
  {
    var i := RecordedByLast(lists, c);
    var d := RecordAll(lists)[c];
    assert Names(lists[i], d) && !NamedLater(lists, i, d);
    var j := RecordedByLast(lists, d);
    assert NamedLater(lists, -1, d);
    assert j < i ==> NamedLater(lists, j, d);
    assert i < j ==> NamedLater(lists, i, d);
  }

  lemma SymmetricForward(lists: seq<seq<int>>, i: nat, c: int, d: int)
    requires Ascendings(lists) && Symmetric(RecordAll(lists))
    requires i < |lists| && |lists[i]| == 2 && (lists[i] == [c, d] || lists[i] == [d, c])
    requires !NamedLater(lists, i, c)
    ensures !NamedLater(lists, i, d)
  {
    assert Names(lists[i], c) && NamedLater(lists, -1, c);
    var k := RecordedByLast(lists, c);
    assert k < i ==> NamedLater(lists, k, c);
    assert i < k ==> NamedLater(lists, i, c);
    var j := RecordedByLast(lists, d);
    assert Names(lists[j], c);
    assert i < j ==> NamedLater(lists, i, c);
  }

  /** What real hosts expose: every core in one pair, each pair listed by both of its cores. */
  lemma EqualOrDisjointIsSymmetric(lists: seq<seq<int>>)
    requires Ascendings(lists) && EqualOrDisjoint(lists)
    ensures Symmetric(RecordAll(lists))
  {
    forall i | 0 <= i < |lists| && |lists[i]| == 2
      ensures NamedLater(lists, i, lists[i][0]) <==> NamedLater(lists, i, lists[i][1])
    {
      assert Names(lists[i], lists[i][0]) && Names(lists[i], lists[i][1]);
    }
    SymmetricIffSettled(lists);
  }

  /** Overlapping lists lose the reverse direction of the earlier pair. */
  lemma OverlapBreaksSymmetry()
    ensures var pairs := RecordAll([[0, 2], [0, 3]]);
      pairs == map[0 := 3, 2 := 0, 3 := 0] && !Symmetric(pairs)
  {
    var lists: seq<seq<int>> := [[0, 2], [0, 3]];
    assert lists[..1] == [[0, 2]];
    var pairs := RecordAll(lists);
    assert pairs[pairs[2]] == 3;
  }
}
