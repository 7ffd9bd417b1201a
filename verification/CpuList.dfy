/** The cpu-list notation of cpuset(7): its parser, its printer and how they relate. */
module CpuList {
  import opened Results
  import opened Text
  import opened Ordered

  // ----- specification of the parser

  /** The cores one comma-separated segment names; a blank segment names none. */
  function SegmentCores(segment: string): Result<set<int>> {
    var t := Strip(segment);
    if t == "" then Ok({})
    else if '-' !in t then
      match IntValue(t)
      case None => Err(ValueError)
      case Some(n) => Ok({n})
    else
      var dash := IndexOf(t, '-');
      match (IntValue(t[..dash]), IntValue(t[dash + 1..]))
      case (Some(lo), Some(hi)) => Ok(Interval(lo, hi))
      case _ => Err(ValueError)
  }

  /** The union of the segments; one malformed segment spoils the list. */
  function CoresOf(segments: seq<string>): Result<set<int>> {
    if segments == [] then Ok({})
    else
      var before :- CoresOf(segments[..|segments| - 1]);
      var last :- SegmentCores(segments[|segments| - 1]);
      Ok(before + last)
  }

  function CpuListCores(value: string): Result<set<int>> {
    CoresOf(Split(value, ','))
  }

  ghost function Parsed(value: string): Result<seq<int>> {
    var cores :- CpuListCores(value);
    Ok(Ascending(cores))
  }

  /** A text that parses holds the ascending list of exactly the cores some segment names. */
  lemma {:induction false} CoresOfMeaning(segments: seq<string>)
    ensures CoresOf(segments).Ok? <==> forall s :: s in segments ==> SegmentCores(s).Ok?
    ensures CoresOf(segments).Err? ==> CoresOf(segments).error == ValueError
    ensures CoresOf(segments).Ok? ==>
      forall c :: c in CoresOf(segments).value <==>
        exists s :: s in segments && SegmentCores(s).Ok? && c in SegmentCores(s).value
    ensures CoresOf(segments).Ok? ==> forall c :: c in CoresOf(segments).value ==> c >= 0
  {
    if segments != [] {
      var front, last := segments[..|segments| - 1], segments[|segments| - 1];
      CoresOfMeaning(front);
      SegmentCoresNatural(last);
      assert segments == front + [last];
    }
  }

  /** No segment can name a negative core: a leading '-' leaves an empty lower bound. */
  lemma SegmentCoresNatural(segment: string)
    ensures SegmentCores(segment).Ok? ==> forall c :: c in SegmentCores(segment).value ==> c >= 0
  {
  }

  lemma {:induction false} CoresOfPrefix(segments: seq<string>, n: nat)
    requires n <= |segments|
    requires CoresOf(segments[..n]).Err?
    ensures CoresOf(segments) == CoresOf(segments[..n])
    decreases |segments| - n
  {
    if n == |segments| {
      assert segments[..n] == segments;
    } else {
      assert segments[..n + 1][..n] == segments[..n];
      CoresOfPrefix(segments, n + 1);
    }
  }

  /** The next segment extends the union or spoils the whole list. */
  lemma CoresOfNext(segments: seq<string>, i: nat)
    requires i < |segments| && CoresOf(segments[..i]).Ok?
    ensures SegmentCores(segments[i]).Ok? ==>
      CoresOf(segments[..i + 1]) == Ok(CoresOf(segments[..i]).value + SegmentCores(segments[i]).value)
    ensures SegmentCores(segments[i]).Err? ==> CoresOf(segments) == Err(ValueError)
  {
    assert segments[..i + 1][..i] == segments[..i];
    if SegmentCores(segments[i]).Err? {
      CoresOfPrefix(segments, i + 1);
    }
  }

  /** What each form of segment names, whatever the blanks around it: nothing, one core, or all cores from
      one bound to the other, none if the bounds are reversed. */
  lemma SegmentForms(p: string, t: string, a: string, b: string, q: string)
    requires AllBlank(p, IsSpace) && AllBlank(q, IsSpace)
    requires t != "" && !IsSpace(t[0]) && !IsSpace(t[|t| - 1])
    ensures SegmentCores(p + q) == Ok({})
    ensures '-' !in t ==>
      SegmentCores(p + t + q) == if IntValue(t).Some? then Ok({IntValue(t).value}) else Err(ValueError)
    ensures t == a + "-" + b && '-' !in a ==>
      SegmentCores(p + t + q) ==
        if IntValue(a).Some? && IntValue(b).Some? then Ok(Interval(IntValue(a).value, IntValue(b).value))
        else Err(ValueError)
  {
    TrimPadding(p, t, q, IsSpace);
    StripBlank(p + q);
    if t == a + "-" + b && '-' !in a {
      IndexOfAfter(a, '-', b);
      assert t[..|a|] == a && t[|a| + 1..] == b && t[|a|] == '-';
    }
  }

  /** The loop of the parser goes on: the segment named the cores of added. */
  lemma SegmentAdds(segments: seq<string>, i: nat, cpus: seq<int>, added: seq<int>)
    requires i < |segments| && CoresOf(segments[..i]) == Ok(Members(cpus))
    requires SegmentCores(segments[i]) == Ok(Members(added))
    ensures CoresOf(segments[..i + 1]) == Ok(Members(cpus + added))
  {
    CoresOfNext(segments, i);
    assert Members(cpus + added) == Members(cpus) + Members(added);
  }

  lemma SegmentBlank(segment: string)
    requires Strip(segment) == ""
    ensures SegmentCores(segment) == Ok(Members([]))
  {
    assert Members([]) == {};
  }

  lemma SegmentSingle(segment: string)
    requires Strip(segment) != "" && '-' !in Strip(segment)
    ensures SegmentCores(segment) ==
      if IntValue(Strip(segment)).Some? then Ok(Members([IntValue(Strip(segment)).value])) else Err(ValueError)
  {
    assert forall n :: Members([n]) == {n};
  }

  lemma SegmentRange(segment: string, dash: nat, start: Option<int>, end: Option<int>)
    requires '-' in Strip(segment) && dash == IndexOf(Strip(segment), '-')
    requires start == IntValue(Strip(segment)[..dash]) && end == IntValue(Strip(segment)[dash + 1..])
    ensures SegmentCores(segment) ==
      if start.Some? && end.Some? then Ok(Members(Range(start.value, end.value + 1))) else Err(ValueError)
  {
    if start.Some? && end.Some? {
      assert Members(Range(start.value, end.value + 1)) == Interval(start.value, end.value);
    }
  }

  method ParseCpuList(value: string) returns (r: Result<seq<int>>)
    ensures r == Parsed(value)
  {
    var segments := Split(value, ',');
    var cpus: seq<int> := [];
    assert Members(cpus) == {};
    for i := 0 to |segments|
      invariant CoresOf(segments[..i]) == Ok(Members(cpus))
    {
      CoresOfNext(segments, i);
      var segment := Strip(segments[i]);
      if segment == "" {
        SegmentBlank(segments[i]);
        SegmentAdds(segments, i, cpus, []);
        assert cpus + [] == cpus;
        continue;
      }
      if '-' !in segment {
        SegmentSingle(segments[i]);
        var core := IntValue(segment);
        if core == None {
          return Err(ValueError);
        }
        SegmentAdds(segments, i, cpus, [core.value]);
        cpus := cpus + [core.value];
        continue;
      }
      var dash := IndexOf(segment, '-');
      var start, end := IntValue(segment[..dash]), IntValue(segment[dash + 1..]);
      SegmentRange(segments[i], dash, start, end);
      if start == None || end == None {
        return Err(ValueError);
      }
      SegmentAdds(segments, i, cpus, Range(start.value, end.value + 1));
      cpus := cpus + Range(start.value, end.value + 1);
    }
    assert segments[..|segments|] == segments;
    var ordered := Sorted(Members(cpus));
    return Ok(ordered);
  }

  // ----- specification of the printer

  datatype Run = Run(lo: int, hi: int)

  /** Appends a core to a list of runs: it lengthens the last run or begins a new one. */
  function AddCore(rs: seq<Run>, x: int): seq<Run> {
    if rs != [] && x == rs[|rs| - 1].hi + 1
    then rs[..|rs| - 1] + [Run(rs[|rs| - 1].lo, x)]
    else rs + [Run(x, x)]
  }

  /** The runs of consecutive numbers in an ascending list. */
  function RunsOf(xs: seq<int>): seq<Run> {
    if xs == [] then [] else AddCore(RunsOf(xs[..|xs| - 1]), xs[|xs| - 1])
  }

  function RunText(r: Run): string {
    if r.lo == r.hi then IntText(r.lo) else IntText(r.lo) + "-" + IntText(r.hi)
  }

  function RunTexts(rs: seq<Run>): (texts: seq<string>)
    ensures |texts| == |rs|
  {
    if rs == [] then [] else RunTexts(rs[..|rs| - 1]) + [RunText(rs[|rs| - 1])]
  }

  ghost function RunsIn(cores: seq<int>): seq<Run> {
    RunsOf(Ascending(Members(cores)))
  }

  ghost function Formatted(cores: seq<int>): string {
    Join(RunTexts(RunsIn(cores)), ",")
  }

  lemma RunTextsAppend(rs: seq<Run>, r: Run)
    ensures RunTexts(rs + [r]) == RunTexts(rs) + [RunText(r)]
  {
    assert (rs + [r])[..|rs|] == rs;
  }

  lemma RunsOfNext(xs: seq<int>, i: nat)
    requires i < |xs|
    ensures RunsOf(xs[..i + 1]) == AddCore(RunsOf(xs[..i]), xs[i])
  {
    assert xs[..i + 1][..i] == xs[..i];
  }

  lemma RunsOfStep(xs: seq<int>, i: nat, done: seq<Run>, last: Run)
    requires i < |xs| && RunsOf(xs[..i]) == done + [last]
    ensures RunsOf(xs[..i + 1]) ==
      if xs[i] == last.hi + 1 then done + [Run(last.lo, xs[i])] else done + [last] + [Run(xs[i], xs[i])]
  {
    RunsOfNext(xs, i);
    assert (done + [last])[..|done|] == done;
  }

  method FormatCpuset(cores: seq<int>) returns (text: string)
    ensures text == Formatted(cores)
  {
    var ordered := Sorted(Members(cores));
    if ordered == [] {
      return "";
    }
    var ranges := CollectRanges(ordered);
    return Join(ranges, ",");
  }

  method CollectRanges(ordered: seq<int>) returns (ranges: seq<string>)
    requires ordered != []
    ensures ranges == RunTexts(RunsOf(ordered))
  {
    ranges := [];
    var start, end := ordered[0], ordered[0];
    ghost var done: seq<Run> := [];
    RunsOfNext(ordered, 0);
    for i := 1 to |ordered|
      invariant RunsOf(ordered[..i]) == done + [Run(start, end)]
      invariant ranges == RunTexts(done)
    {
      RunsOfStep(ordered, i, done, Run(start, end));
      var core := ordered[i];
      if core == end + 1 {
        end := core;
        continue;
      }
      RunTextsAppend(done, Run(start, end));
      ranges := ranges + [RunText(Run(start, end))];
      done := done + [Run(start, end)];
      start := core;
      end := core;
    }
    assert ordered[..|ordered|] == ordered;
    RunTextsAppend(done, Run(start, end));
    ranges := ranges + [RunText(Run(start, end))];
  }

  // ----- the printer's runs are the maximal ones

  /** The cores a list of runs stands for. */
  function RunSet(rs: seq<Run>): set<int> {
    if rs == [] then {} else
    RunSet(rs[..|rs| - 1]) + Interval(rs[|rs| - 1].lo, rs[|rs| - 1].hi)
  }

  /** Non-empty runs in ascending order, at least one core missing between neighbours. */
  predicate Separated(rs: seq<Run>) {
    && (forall i :: 0 <= i < |rs| ==> rs[i].lo <= rs[i].hi)
    && (forall i, j :: 0 <= i < |rs| && j == i + 1 < |rs| ==> rs[i].hi + 1 < rs[j].lo)
  }

  /** rs lists, in ascending order, the maximal intervals that make up s. */
  predicate MaximalRuns(rs: seq<Run>, s: set<int>) {
    Separated(rs) && RunSet(rs) == s
  }

  /** c begins a run of s. */
  predicate IsStart(s: set<int>, c: int) {
    c in s && c - 1 !in s
  }

  function Starts(s: set<int>): set<int> {
    set c | c in s && IsStart(s, c)
  }

  lemma RunSetAppend(rs: seq<Run>, r: Run)
    ensures RunSet(rs + [r]) == RunSet(rs) + Interval(r.lo, r.hi)
  {
    assert (rs + [r])[..|rs|] == rs;
  }

  lemma {:induction false} LastRunIsGreatest(rs: seq<Run>)
    requires rs != [] && Separated(rs)
    ensures rs[|rs| - 1].hi in RunSet(rs)
    ensures forall x :: x in RunSet(rs) ==> x <= rs[|rs| - 1].hi
    ensures var front, lo := rs[..|rs| - 1], rs[|rs| - 1].lo;
      forall x :: x in RunSet(front) ==> x < lo - 1
  {
    var front := rs[..|rs| - 1];
    if front != [] {
      LastRunIsGreatest(front);
      assert front[|front| - 1].hi + 1 < rs[|rs| - 1].lo;
    }
  }

  lemma StartsStep(s: set<int>, lo: int, hi: int)
    requires lo <= hi && forall x :: x in s ==> x < lo - 1
    ensures |Starts(s + Interval(lo, hi))| == |Starts(s)| + 1
  {
    var all := s + Interval(lo, hi);
    forall c ensures c in Starts(all) <==> c in Starts(s) + {lo} {
      assert c in Starts(all) <==> c in all && c - 1 !in all;
      assert c in Starts(s) <==> c in s && c - 1 !in s;
    }
    assert Starts(all) == Starts(s) + {lo};
  }

  /** One run for each core whose predecessor is missing. */
  lemma {:induction false} RunCount(rs: seq<Run>)
    requires Separated(rs)
    ensures |rs| == |Starts(RunSet(rs))|
  {
    if rs != [] {
      var front, last := rs[..|rs| - 1], rs[|rs| - 1];
      RunCount(front);
      LastRunIsGreatest(rs);
      StartsStep(RunSet(front), last.lo, last.hi);
    }
  }

  lemma AddCoreSet(rs: seq<Run>, x: int)
    requires Separated(rs)
    ensures RunSet(AddCore(rs, x)) == RunSet(rs) + {x}
  {
    if rs != [] && x == rs[|rs| - 1].hi + 1 {
      var front, last := rs[..|rs| - 1], rs[|rs| - 1];
      RunSetAppend(front, Run(last.lo, x));
      assert Interval(last.lo, x) == Interval(last.lo, last.hi) + {x};
      assert RunSet(front) + (Interval(last.lo, last.hi) + {x})
          == RunSet(front) + Interval(last.lo, last.hi) + {x};
    } else {
      RunSetAppend(rs, Run(x, x));
      assert Interval(x, x) == {x};
    }
  }

  lemma AddCoreSeparated(rs: seq<Run>, x: int)
    requires Separated(rs)
    requires rs != [] ==> rs[|rs| - 1].hi < x
    ensures Separated(AddCore(rs, x))
  {
  }

  lemma AddCoreMaximal(rs: seq<Run>, s: set<int>, x: int)
    requires MaximalRuns(rs, s) && (rs != [] ==> rs[|rs| - 1].hi < x)
    ensures var after := AddCore(rs, x);
      MaximalRuns(after, s + {x}) && after != [] && after[|after| - 1].hi == x
  {
    AddCoreSet(rs, x);
    AddCoreSeparated(rs, x);
  }

  /** rs are the maximal runs of the list, and end where it ends. */
  predicate RunsFit(rs: seq<Run>, xs: seq<int>) {
    && MaximalRuns(rs, Members(xs))
    && (rs == [] <==> xs == [])
    && (xs != [] ==> rs[|rs| - 1].hi == xs[|xs| - 1])
  }

  lemma RunsFitAppend(rs: seq<Run>, xs: seq<int>, x: int)
    requires RunsFit(rs, xs) && (xs != [] ==> xs[|xs| - 1] < x)
    ensures RunsFit(AddCore(rs, x), xs + [x])
  {
    AddCoreMaximal(rs, Members(xs), x);
    MembersAppend(xs, x);
  }

  lemma NoRunsFit()
    ensures RunsFit(RunsOf([]), [])
  {
    NoMembers([]);
  }

  lemma RunsFitLast(xs: seq<int>, rs: seq<Run>)
    requires xs != [] && StrictlyAscending(xs)
    requires RunsFit(rs, xs[..|xs| - 1])
    ensures RunsFit(AddCore(rs, xs[|xs| - 1]), xs)
  {
    var front, x := xs[..|xs| - 1], xs[|xs| - 1];
    RunsFitAppend(rs, front, x);
    assert xs == front + [x];
  }

  lemma {:induction false} RunsOfMaximal(xs: seq<int>)
    requires StrictlyAscending(xs)
    ensures RunsFit(RunsOf(xs), xs)
  {
    if xs == [] {
      NoRunsFit();
    } else {
      RunsOfMaximal(xs[..|xs| - 1]);
      RunsFitLast(xs, RunsOf(xs[..|xs| - 1]));
    }
  }

  lemma LastRunAgrees(a: seq<Run>, b: seq<Run>)
    requires a != [] && b != [] && Separated(a) && Separated(b) && RunSet(a) == RunSet(b)
    ensures a[|a| - 1] == b[|b| - 1]
  {
    LastRunIsGreatest(a);
    LastRunIsGreatest(b);
    var la, lb := a[|a| - 1], b[|b| - 1];
    assert la.hi == lb.hi;
    assert la.lo - 1 !in RunSet(a) && lb.lo - 1 !in RunSet(b);
  }

  lemma FrontRuns(rs: seq<Run>)
    requires rs != [] && Separated(rs)
    ensures RunSet(rs[..|rs| - 1]) == RunSet(rs) - Interval(rs[|rs| - 1].lo, rs[|rs| - 1].hi)
  {
    LastRunIsGreatest(rs);
  }

  /** The maximal runs of a set are unique, so the printer had no other choice. */
  lemma {:induction false} MaximalRunsUnique(a: seq<Run>, b: seq<Run>)
    requires Separated(a) && Separated(b) && RunSet(a) == RunSet(b)
    ensures a == b
  {
    RunCount(a);
    RunCount(b);
    if a != [] {
      LastRunAgrees(a, b);
      var last := a[|a| - 1];
      FrontRuns(a);
      FrontRuns(b);
      MaximalRunsUnique(a[..|a| - 1], b[..|b| - 1]);
      assert a == a[..|a| - 1] + [last] && b == b[..|b| - 1] + [last];
    }
  }

  /** What the printer prints: the maximal runs of the cores and nothing else. */
  lemma FormattedCanonical(cores: seq<int>, rs: seq<Run>)
    ensures MaximalRuns(RunsIn(cores), Members(cores))
    ensures MaximalRuns(rs, Members(cores)) ==> Formatted(cores) == Join(RunTexts(rs), ",")
  {
    var ordered := Ascending(Members(cores));
    assert Members(ordered) == Members(cores);
    RunsOfMaximal(ordered);
    if MaximalRuns(rs, Members(cores)) {
      MaximalRunsUnique(rs, RunsIn(cores));
    }
  }

  // ----- the printed text, piece by piece

  lemma OneRun(cores: seq<int>, lo: int, hi: int)
    requires lo <= hi && Members(cores) == Interval(lo, hi)
    ensures Formatted(cores) == RunText(Run(lo, hi))
  {
    var rs := [Run(lo, hi)];
    RunSetAppend([], Run(lo, hi));
    assert [] + rs == rs;
    RunTextsAppend([], Run(lo, hi));
    FormattedCanonical(cores, rs);
  }

  /** A single core is printed as its number. */
  lemma FormattedSingle(c: int)
    ensures Formatted([c]) == IntText(c)
  {
    assert Members([c]) == Interval(c, c);
    OneRun([c], c, c);
  }

  /** Consecutive cores are printed as their bounds. */
  lemma FormattedRange(lo: int, hi: int)
    requires lo < hi
    ensures Formatted(Range(lo, hi + 1)) == IntText(lo) + "-" + IntText(hi)
  {
    assert Members(Range(lo, hi + 1)) == Interval(lo, hi);
    OneRun(Range(lo, hi + 1), lo, hi);
  }

  lemma {:induction false} RunSetConcat(a: seq<Run>, b: seq<Run>)
    ensures RunSet(a + b) == RunSet(a) + RunSet(b)
  {
    if b == [] {
      assert a + b == a;
    } else {
      var front, last := b[..|b| - 1], b[|b| - 1];
      assert a + b == (a + front) + [last];
      RunSetAppend(a + front, last);
      RunSetConcat(a, front);
    }
  }

  lemma {:induction false} RunTextsConcat(a: seq<Run>, b: seq<Run>)
    ensures RunTexts(a + b) == RunTexts(a) + RunTexts(b)
  {
    if b == [] {
      assert a + b == a;
    } else {
      var front, last := b[..|b| - 1], b[|b| - 1];
      assert a + b == (a + front) + [last];
      RunTextsAppend(a + front, last);
      RunTextsConcat(a, front);
    }
  }

  lemma BoundsInSet(rs: seq<Run>)
    requires rs != [] && Separated(rs)
    ensures rs[0].lo in RunSet(rs) && rs[|rs| - 1].hi in RunSet(rs)
  {
    LastRunIsGreatest(rs);
    RunStartIn(rs, 0);
  }

  lemma SeparatedConcat(a: seq<Run>, b: seq<Run>)
    requires Separated(a) && Separated(b) && a != [] && b != []
    requires forall x, y :: x in RunSet(a) && y in RunSet(b) ==> x + 1 < y
    ensures Separated(a + b)
  {
    BoundsInSet(a);
    BoundsInSet(b);
    assert a[|a| - 1].hi + 1 < b[0].lo;
  }

  lemma NonEmptyRuns(cores: seq<int>)
    requires cores != []
    ensures RunsIn(cores) != [] && MaximalRuns(RunsIn(cores), Members(cores))
  {
    FormattedCanonical(cores, []);
    FormattedSegments(cores);
  }

  /** Two parts with a gap between them are printed one after the other, separated by a comma. */
  lemma FormattedParts(a: seq<int>, b: seq<int>)
    requires a != [] && b != [] && forall x, y :: x in a && y in b ==> x + 1 < y
    ensures Formatted(a + b) == Formatted(a) + "," + Formatted(b)
  {
    var ra, rb := RunsIn(a), RunsIn(b);
    NonEmptyRuns(a);
    NonEmptyRuns(b);
    forall x, y | x in RunSet(ra) && y in RunSet(rb) ensures x + 1 < y {
      assert x in Members(a) && y in Members(b);
    }
    SeparatedConcat(ra, rb);
    RunSetConcat(ra, rb);
    assert Members(a + b) == Members(a) + Members(b);
    FormattedCanonical(a + b, ra + rb);
    RunTextsConcat(ra, rb);
    JoinAppend(RunTexts(ra), RunTexts(rb), ",");
  }

  // ----- parser after printer

  lemma RunTextShape(r: Run)
    ensures ',' !in RunText(r)
    ensures RunText(r) != "" && Strip(RunText(r)) == RunText(r)
    ensures RunText(r)[0] == '-' <==> r.lo < 0
  {
    assert RunText(r)[0] == IntText(r.lo)[0] && IntText(r.lo)[0] in IntText(r.lo);
    StripKeeps(RunText(r));
  }

  lemma IndexOfAfter(a: string, c: char, b: string)
    requires c !in a
    ensures IndexOf(a + [c] + b, c) == |a|
  {
    var t := a + [c] + b;
    var i := IndexOf(t, c);
    assert t[|a|] == c;
    assert forall k :: 0 <= k < |a| ==> t[k] == a[k] && a[k] in a;
    assert forall k :: 0 <= k < i ==> t[..i][k] == t[k];
  }

  lemma RunTextCores(r: Run)
    requires 0 <= r.lo <= r.hi
    ensures SegmentCores(RunText(r)) == Ok(Interval(r.lo, r.hi))
  {
    RunTextShape(r);
    IntValueOfText(r.lo);
    IntValueOfText(r.hi);
    var t, lo, hi := RunText(r), IntText(r.lo), IntText(r.hi);
    if r.lo == r.hi {
      assert Interval(r.lo, r.hi) == {r.lo};
    } else {
      assert t == lo + ['-'] + hi;
      IndexOfAfter(lo, '-', hi);
      assert t[..|lo|] == lo && t[|lo| + 1..] == hi && t[|lo|] == '-';
    }
  }

  lemma NegativeRunRejected(r: Run)
    requires r.lo < 0
    ensures SegmentCores(RunText(r)) == Err(ValueError)
  {
    RunTextShape(r);
    var t := RunText(r);
    assert t[0] in t;
    assert t[..0] == "";
    assert IntValue("") == None;
  }

  predicate NaturalRuns(rs: seq<Run>) {
    forall i :: 0 <= i < |rs| ==> 0 <= rs[i].lo
  }

  lemma {:induction false} CoresOfPointwise(segments: seq<string>, rs: seq<Run>)
    requires |segments| == |rs|
    requires forall i :: 0 <= i < |rs| ==> SegmentCores(segments[i]) == Ok(Interval(rs[i].lo, rs[i].hi))
    ensures CoresOf(segments) == Ok(RunSet(rs))
  {
    if rs != [] {
      CoresOfPointwise(segments[..|rs| - 1], rs[..|rs| - 1]);
    }
  }

  lemma {:induction false} RunTextsAt(rs: seq<Run>, i: nat)
    requires i < |rs|
    ensures RunTexts(rs)[i] == RunText(rs[i])
  {
    if i < |rs| - 1 {
      RunTextsAt(rs[..|rs| - 1], i);
    }
  }

  /** Reading back the texts of separated runs. */
  lemma CoresOfRunTexts(rs: seq<Run>)
    requires Separated(rs)
    ensures CoresOf(RunTexts(rs)) == if NaturalRuns(rs) then Ok(RunSet(rs)) else Err(ValueError)
  {
    if NaturalRuns(rs) {
      forall i | 0 <= i < |rs|
        ensures SegmentCores(RunTexts(rs)[i]) == Ok(Interval(rs[i].lo, rs[i].hi))
      {
        RunTextsAt(rs, i);
        RunTextCores(rs[i]);
      }
      CoresOfPointwise(RunTexts(rs), rs);
    } else {
      var i :| 0 <= i < |rs| && rs[i].lo < 0;
      RunTextsAt(rs, i);
      NegativeRunRejected(rs[i]);
      assert RunTexts(rs)[i] in RunTexts(rs);
      CoresOfMeaning(RunTexts(rs));
    }
  }

  lemma {:induction false} RunStartIn(rs: seq<Run>, i: nat)
    requires Separated(rs) && i < |rs|
    ensures rs[i].lo in RunSet(rs)
  {
    if i < |rs| - 1 {
      RunStartIn(rs[..|rs| - 1], i);
    }
  }

  lemma {:induction false} NaturalRunMembers(rs: seq<Run>, c: int)
    requires NaturalRuns(rs) && c in RunSet(rs)
    ensures 0 <= c
  {
    var front, last := rs[..|rs| - 1], rs[|rs| - 1];
    if c !in Interval(last.lo, last.hi) {
      NaturalRunMembers(front, c);
    }
  }

  lemma NaturalRunSet(rs: seq<Run>)
    requires Separated(rs)
    ensures NaturalRuns(rs) <==> forall c :: c in RunSet(rs) ==> 0 <= c
  {
    if NaturalRuns(rs) {
      forall c | c in RunSet(rs) ensures 0 <= c {
        NaturalRunMembers(rs, c);
      }
    } else {
      var i :| 0 <= i < |rs| && rs[i].lo < 0;
      RunStartIn(rs, i);
    }
  }

  lemma {:induction false} RunTextsSegments(rs: seq<Run>)
    ensures forall t :: t in RunTexts(rs) ==> ',' !in t && Strip(t) != ""
  {
    if rs != [] {
      RunTextsSegments(rs[..|rs| - 1]);
      RunTextShape(rs[|rs| - 1]);
    }
  }

  lemma RunsNonEmpty(xs: seq<int>)
    ensures RunsOf(xs) == [] <==> xs == []
  {
  }

  /** Splitting the printer's output gives its segments back. */
  lemma FormattedSegments(cores: seq<int>)
    ensures Split(Formatted(cores), ',') == if cores == [] then [""] else RunTexts(RunsIn(cores))
    ensures cores == [] <==> RunsIn(cores) == []
  {
    NoMembers(cores);
    NoMembers(Ascending(Members(cores)));
    var rs := RunsIn(cores);
    RunsNonEmpty(Ascending(Members(cores)));
    if rs != [] {
      RunTextsSegments(rs);
      SplitJoin(RunTexts(rs), ',');
    }
  }

  lemma EmptyText()
    ensures CpuListCores("") == Ok({})
  {
    var segments := Split("", ',');
    assert segments == [""] && segments[..0] == [];
    var none: set<int> := {};
    assert none + none == none;
  }

  /** The parser undoes the printer exactly on the lists without negative numbers. */
  lemma RoundTrip(cores: seq<int>)
    ensures Parsed(Formatted(cores)) ==
      if forall c :: c in cores ==> c >= 0 then Ok(Ascending(Members(cores))) else Err(ValueError)
  {
    FormattedCanonical(cores, []);
    FormattedSegments(cores);
    CoresOfRunTexts(RunsIn(cores));
    NaturalRunSet(RunsIn(cores));
    NoMembers(cores);
    assert forall c :: c in Members(cores) <==> c in cores;
    if cores == [] {
      EmptyText();
    }
  }

  lemma DigitsEnd(d: string, x: string, e: string, y: string)
    requires forall c :: c in d + e ==> IsDigit(c)
    requires (x == "" || x[0] == '-') && (y == "" || y[0] == '-')
    requires d + x == e + y
    ensures d == e && x == y
  {
    var s := d + x;
    forall i | 0 <= i < |d| ensures IsDigit(s[i]) { assert s[i] == (d + e)[i]; }
    forall i | 0 <= i < |e| ensures IsDigit(s[i]) { assert s[i] == (e + y)[i] == (d + e)[|d| + i]; }
    assert |d| < |s| ==> s[|d|] == x[0];
    assert |e| < |s| ==> s[|e|] == y[0];
    assert d == s[..|d|] && e == s[..|e|] && x == s[|d|..] && y == s[|e|..];
  }

  lemma NatTextEnds(m: nat, x: string, n: nat, y: string)
    requires (x == "" || x[0] == '-') && (y == "" || y[0] == '-')
    requires NatText(m) + x == NatText(n) + y
    ensures m == n && x == y
  {
    assert forall c :: c in NatText(m) + NatText(n) ==> c in NatText(m) || c in NatText(n);
    DigitsEnd(NatText(m), x, NatText(n), y);
    NatValueOfText(m);
    NatValueOfText(n);
  }

  /** A number's text ends where a dash or the end of the text follows. */
  lemma IntTextEnds(m: int, x: string, n: int, y: string)
    requires (x == "" || x[0] == '-') && (y == "" || y[0] == '-')
    requires IntText(m) + x == IntText(n) + y
    ensures m == n && x == y
  {
    SameSign(m, x, n, y);
    if m < 0 {
      AfterSign(NatText(-m), x, NatText(-n), y);
      NatTextEnds(-m, x, -n, y);
    } else {
      NatTextEnds(m, x, n, y);
    }
  }

  lemma SameSign(m: int, x: string, n: int, y: string)
    requires IntText(m) + x == IntText(n) + y
    ensures m < 0 <==> n < 0
  {
    assert (IntText(m) + x)[0] == IntText(m)[0] && (IntText(n) + y)[0] == IntText(n)[0];
  }

  lemma AfterSign(d: string, x: string, e: string, y: string)
    requires ("-" + d) + x == ("-" + e) + y
    ensures d + x == e + y
  {
    assert (("-" + d) + x)[1..] == d + x && (("-" + e) + y)[1..] == e + y;
  }

  /** A run can be read off its text, negative bounds included. */
  lemma RunTextInjective(r: Run, s: Run)
    requires r.lo <= r.hi && s.lo <= s.hi && RunText(r) == RunText(s)
    ensures r == s
  {
    var x, y := UpperText(r), UpperText(s);
    assert RunText(r) == IntText(r.lo) + x && RunText(s) == IntText(s.lo) + y;
    IntTextEnds(r.lo, x, s.lo, y);
    if x != "" {
      assert x[1..] == IntText(r.hi) && y[1..] == IntText(s.hi);
      IntValueOfText(r.hi);
      IntValueOfText(s.hi);
    }
  }

  function UpperText(r: Run): string {
    if r.lo == r.hi then "" else "-" + IntText(r.hi)
  }

  lemma RunTextsInjective(a: seq<Run>, b: seq<Run>)
    requires Separated(a) && Separated(b) && RunTexts(a) == RunTexts(b)
    ensures a == b
  {
    forall i | 0 <= i < |a| ensures a[i] == b[i] {
      RunTextsAt(a, i);
      RunTextsAt(b, i);
      RunTextInjective(a[i], b[i]);
    }
  }

  lemma SegmentsIdentifySet(a: seq<int>, b: seq<int>)
    requires Formatted(a) == Formatted(b) && b != []
    ensures a != [] && RunTexts(RunsIn(a)) == RunTexts(RunsIn(b))
  {
    FormattedSegments(a);
    FormattedSegments(b);
    RunTextsSegments(RunsIn(b));
    assert Strip("") == "";
    assert a == [] ==> RunTexts(RunsIn(b)) == [""] && "" in [""];
  }

  /** Equal texts are equal sets of numbers, whatever their signs. */
  lemma FormattedIdentifiesSet(a: seq<int>, b: seq<int>)
    ensures Formatted(a) == Formatted(b) <==> Members(a) == Members(b)
  {
    if Formatted(a) == Formatted(b) {
      FormattedCanonical(a, []);
      FormattedCanonical(b, []);
      if b != [] {
        SegmentsIdentifySet(a, b);
        RunTextsInjective(RunsIn(a), RunsIn(b));
      } else if a != [] {
        SegmentsIdentifySet(b, a);
      }
    }
  }

  /** A parsed list is ascending and names no negative core. */
  lemma ParsedShape(value: string)
    requires Parsed(value).Ok?
    ensures forall c :: c in Parsed(value).value ==> c >= 0
    ensures StrictlyAscending(Parsed(value).value)
    ensures Ascending(Members(Parsed(value).value)) == Parsed(value).value
  {
    CoresOfMeaning(Split(value, ','));
    var cores := Parsed(value).value;
    AscendingOfMembers(cores);
    assert forall c :: c in cores ==> c in Members(cores);
  }

  /** Printing a parsed text normalises it: a second pass changes nothing. */
  lemma FormatParseIdempotent(value: string)
    requires Parsed(value).Ok?
    ensures var normal := Formatted(Parsed(value).value);
      Parsed(normal) == Parsed(value) && Formatted(Parsed(normal).value) == normal
  {
    var cores := Parsed(value).value;
    ParsedShape(value);
    RoundTrip(cores);
  }

  // ----- the printer's text is the shortest list of segments

  function NonBlank(segments: seq<string>): nat {
    if segments == [] then 0
    else NonBlank(segments[..|segments| - 1]) + if Strip(segments[|segments| - 1]) == "" then 0 else 1
  }

  lemma {:induction false} NonBlankAll(segments: seq<string>)
    requires forall s :: s in segments ==> Strip(s) != ""
    ensures NonBlank(segments) == |segments|
  {
    if segments != [] {
      var front := segments[..|segments| - 1];
      assert segments == front + [segments[|segments| - 1]];
      NonBlankAll(front);
    }
  }

  /** A segment is one interval, so it can begin at most one run. */
  lemma {:induction false} StartsBoundedBySegments(segments: seq<string>)
    requires CoresOf(segments).Ok?
    ensures |Starts(CoresOf(segments).value)| <= NonBlank(segments)
  {
    if segments == [] {
      assert Starts({}) == {};
    } else {
      var front, last := segments[..|segments| - 1], segments[|segments| - 1];
      StartsBoundedBySegments(front);
      var before, added := CoresOf(front).value, SegmentCores(last).value;
      var lo := SegmentInterval(last);
      StartsOfUnion(before, added, lo);
    }
  }

  lemma SegmentInterval(segment: string) returns (lo: int)
    requires SegmentCores(segment).Ok?
    ensures forall c :: c in SegmentCores(segment).value ==> IsStart(SegmentCores(segment).value, c) ==> c == lo
    ensures Strip(segment) == "" ==> SegmentCores(segment).value == {}
  {
    var t := Strip(segment);
    if t == "" {
      lo := 0;
    } else if '-' !in t {
      lo := IntValue(t).value;
    } else {
      lo := IntValue(t[..IndexOf(t, '-')]).value;
    }
  }

  lemma StartsOfUnion(before: set<int>, added: set<int>, lo: int)
    requires forall c :: c in added && IsStart(added, c) ==> c == lo
    ensures |Starts(before + added)| <= |Starts(before)| + if added == {} then 0 else 1
  {
    if added == {} {
      assert before + added == before;
    } else {
      assert Starts(before + added) <= Starts(before) + {lo};
      SubsetSize(Starts(before + added), Starts(before) + {lo});
    }
  }

  /** No cpu-list text for the same cores has fewer non-blank segments than the printed one. */
  lemma FormattedMinimal(cores: seq<int>, value: string)
    requires CpuListCores(value) == Ok(Members(cores))
    ensures NonBlank(Split(Formatted(cores), ',')) <= NonBlank(Split(value, ','))
    ensures NonBlank(Split(Formatted(cores), ',')) == |Starts(Members(cores))|
  {
    var rs := RunsIn(cores);
    FormattedCanonical(cores, []);
    RunCount(rs);
    FormattedSegments(cores);
    RunTextsSegments(rs);
    if cores != [] {
      NonBlankAll(RunTexts(rs));
    }
    StartsBoundedBySegments(Split(value, ','));
  }
}
