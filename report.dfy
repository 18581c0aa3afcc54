/**
 * The results report: keep the scored rows, average their OCQ and violation
 * flags, and break both down by use case, one line per use case in ascending
 * order of its name.
 */
module Report {
  import opened Wrappers
  import Batch
  import Scoring

  /** What the report reads from one JSON line: whether it has an "error"
      key, its "ocq" when that is a number, its "use_case" and its
      "safe_violation". */
  datatype Record = Record(hasError: bool, ocq: Option<real>, useCase: Option<string>, safeViolation: Option<real>)

  /** The two lists kept per use case. */
  datatype Group = Group(ocqs: seq<real>, viols: seq<real>)

  /** One "By use case" line: the use case, its row count, its mean OCQ and
      its violation percentage. */
  datatype GroupLine = GroupLine(useCase: string, n: nat, meanOcq: real, violPercent: real)

  /** The whole report; the early stop when nothing is scored carries no
      statistic. */
  datatype Summary =
    | NoScoredRows
    | Summary(scoredCount: nat, totalCount: nat, meanOcq: real, violPercent: real, groups: seq<GroupLine>)

  /** A row counts when it has no error and a numeric OCQ. */
  predicate IsScored(r: Record) { !r.hasError && r.ocq.Some? }

  /** The grouping key: the row's use case, "UNKNOWN" when absent. */
  function UseCaseKey(r: Record): string { r.useCase.GetOr("UNKNOWN") }

  /** The row's violation flag, 0 when absent. */
  function ViolOf(r: Record): real { r.safeViolation.GetOr(0.0) }

  /** The row's OCQ; only ever taken of scored rows, which have one. */
  function OcqOf(r: Record): real { r.ocq.GetOr(0.0) }

  function Ocqs(xs: seq<Record>): seq<real> { seq(|xs|, i requires 0 <= i < |xs| => OcqOf(xs[i])) }
  function Viols(xs: seq<Record>): seq<real> { seq(|xs|, i requires 0 <= i < |xs| => ViolOf(xs[i])) }

  /** The filter `[r for r in rows if "error" not in r and ocq is numeric]`. */
  function Scored(rows: seq<Record>): (s: seq<Record>)
    ensures |s| <= |rows|
    ensures forall r :: r in s <==> r in rows && IsScored(r)
  {
    if rows == [] then []
    else
      var init, last := rows[..|rows| - 1], rows[|rows| - 1];
      assert rows == init + [last];
      Scored(init) + if IsScored(last) then [last] else []
  }

  /** The rows of `xs` whose use-case key is `k`, in their input order. */
  function InGroup(xs: seq<Record>, k: string): (g: seq<Record>)
    ensures |g| <= |xs|
    ensures forall r :: r in g <==> r in xs && UseCaseKey(r) == k
  {
    if xs == [] then []
    else
      var init, last := xs[..|xs| - 1], xs[|xs| - 1];
      assert xs == init + [last];
      InGroup(init, k) + if UseCaseKey(last) == k then [last] else []
  }

  function Sum(xs: seq<real>): real
  {
    if xs == [] then 0.0 else Sum(xs[..|xs| - 1]) + xs[|xs| - 1]
  }

  /** `statistics.mean`: the sum over the count. */
  function Mean(xs: seq<real>): real
    requires xs != []
  {
    Sum(xs) / (|xs| as real)
  }

  /** A mean lies between any bounds that hold for every value. */
  lemma MeanWithin(xs: seq<real>, lo: real, hi: real)
    requires xs != []
    requires forall i :: 0 <= i < |xs| ==> lo <= xs[i] <= hi
    ensures lo <= Mean(xs) <= hi
  {
    SumWithin(xs, lo, hi);
  }

  lemma {:induction false} SumWithin(xs: seq<real>, lo: real, hi: real)
    requires forall i :: 0 <= i < |xs| ==> lo <= xs[i] <= hi
    ensures (|xs| as real) * lo <= Sum(xs) <= (|xs| as real) * hi
  {
    if xs != [] {
      SumWithin(xs[..|xs| - 1], lo, hi);
    }
  }

  ghost predicate Distinct(ks: seq<string>) {
    forall i, j :: 0 <= i < j < |ks| ==> ks[i] != ks[j]
  }

  /** Some row of `xs` has use-case key `k`. */
  ghost predicate HasKey(xs: seq<Record>, k: string) {
    exists j :: 0 <= j < |xs| && UseCaseKey(xs[j]) == k
  }

  /** The group a complete pass over `xs` keeps under key `k`. */
  function GroupOf(xs: seq<Record>, k: string): Group {
    Group(Ocqs(InGroup(xs, k)), Viols(InGroup(xs, k)))
  }

  /** A key no row carries has an empty group. */
  lemma {:induction false} NoKeyEmptyGroup(xs: seq<Record>, k: string)
    requires !HasKey(xs, k)
    ensures InGroup(xs, k) == []
  {
    if xs != [] {
      var init := xs[..|xs| - 1];
      assert !HasKey(init, k) by {
        forall j | 0 <= j < |init| ensures UseCaseKey(init[j]) != k { assert init[j] == xs[j]; }
      }
      NoKeyEmptyGroup(init, k);
      assert UseCaseKey(xs[|xs| - 1]) != k;
    }
  }

  /** A key some row carries has a non-empty group. */
  lemma KeyNonEmptyGroup(xs: seq<Record>, k: string)
    requires HasKey(xs, k)
    ensures InGroup(xs, k) != []
  {
    var j :| 0 <= j < |xs| && UseCaseKey(xs[j]) == k;
    assert xs[j] in InGroup(xs, k);
  }

  /** One more row extends exactly its own key's group, at the end. */
  lemma GroupOfSnoc(xs: seq<Record>, r: Record)
    ensures forall k :: HasKey(xs + [r], k) <==> HasKey(xs, k) || UseCaseKey(r) == k
    ensures forall k :: k != UseCaseKey(r) ==> GroupOf(xs + [r], k) == GroupOf(xs, k)
    ensures var k := UseCaseKey(r);
      GroupOf(xs + [r], k) == Group(GroupOf(xs, k).ocqs + [OcqOf(r)], GroupOf(xs, k).viols + [ViolOf(r)])
  {
    assert (xs + [r])[..|xs|] == xs;
    forall k ensures HasKey(xs + [r], k) <==> HasKey(xs, k) || UseCaseKey(r) == k {
      if HasKey(xs + [r], k) {
        var j :| 0 <= j < |xs| + 1 && UseCaseKey((xs + [r])[j]) == k;
        if j < |xs| { assert UseCaseKey(xs[j]) == k; }
      }
      if HasKey(xs, k) {
        var j :| 0 <= j < |xs| && UseCaseKey(xs[j]) == k;
        assert UseCaseKey((xs + [r])[j]) == k;
      }
      if UseCaseKey(r) == k { assert UseCaseKey((xs + [r])[|xs|]) == k; }
    }
  }

  /** The `by_uc` loop: one group per use-case key, created on first sight
      (`setdefault`), each holding the OCQs and violation flags of its rows in
      input order. `order` is the dictionary's key order. */
  method GroupByUseCase(scored: seq<Record>) returns (order: seq<string>, groups: map<string, Group>)
    ensures Distinct(order)
    ensures forall k :: k in groups <==> k in order
    ensures forall k :: k in order <==> HasKey(scored, k)
    ensures forall k :: k in groups ==> groups[k] == GroupOf(scored, k)
  {
    order := [];
    groups := map[];
    for i := 0 to |scored|
      invariant Distinct(order)
      invariant forall k :: k in groups <==> k in order
      invariant forall k :: k in order <==> HasKey(scored[..i], k)
      invariant forall k :: k in groups ==> groups[k] == GroupOf(scored[..i], k)
    {
      var r := scored[i];
      var uc := r.useCase.GetOr("UNKNOWN");
      assert scored[..i + 1] == scored[..i] + [r];
      GroupOfSnoc(scored[..i], r);
      if uc !in groups {
        NoKeyEmptyGroup(scored[..i], uc);
        groups := groups[uc := Group([], [])];
        order := order + [uc];
      }
      groups := groups[uc := Group(groups[uc].ocqs + [OcqOf(r)], groups[uc].viols + [ViolOf(r)])];
    }
    assert scored[..|scored|] == scored;
  }

  // ---------------------------------------------------------------------------
  // `sorted()` on the keys: Python orders strings by code points,
  // lexicographically, a proper prefix first.

  predicate LexLess(a: string, b: string)
  {
    if a == [] then b != []
    else b != [] && (a[0] < b[0] || (a[0] == b[0] && LexLess(a[1..], b[1..])))
  }

  lemma {:induction false} LexIrreflexive(a: string)
    ensures !LexLess(a, a)
  {
    if a != [] { LexIrreflexive(a[1..]); }
  }

  lemma {:induction false} LexTransitive(a: string, b: string, c: string)
    requires LexLess(a, b) && LexLess(b, c)
    ensures LexLess(a, c)
  {
    if a != [] && a[0] == b[0] && b[0] == c[0] {
      LexTransitive(a[1..], b[1..], c[1..]);
    }
  }

  lemma {:induction false} LexTotal(a: string, b: string)
    ensures a == b || LexLess(a, b) || LexLess(b, a)
  {
    if a != [] && b != [] && a[0] == b[0] {
      LexTotal(a[1..], b[1..]);
      if a[1..] == b[1..] {
        assert a == [a[0]] + a[1..] && b == [b[0]] + b[1..];
      }
    }
  }

  ghost predicate Ascending(ks: seq<string>) {
    forall i, j :: 0 <= i < j < |ks| ==> LexLess(ks[i], ks[j])
  }

  /** Place `k` into an ascending list that does not hold it. */
  function Insert(k: string, ks: seq<string>): (r: seq<string>)
    requires Ascending(ks) && k !in ks
    ensures Ascending(r)
    ensures multiset(r) == multiset(ks) + multiset{k}
  {
    if ks == [] then [k]
    else if LexLess(k, ks[0]) then
      assert forall j :: 0 < j < |ks| ==> LexLess(k, ks[j]) by {
        forall j | 0 < j < |ks| ensures LexLess(k, ks[j]) { LexTransitive(k, ks[0], ks[j]); }
      }
      [k] + ks
    else
      LexTotal(k, ks[0]);
      assert ks == [ks[0]] + ks[1..];
      var rest := Insert(k, ks[1..]);
      assert forall x :: x in rest ==> LexLess(ks[0], x) by {
        forall x | x in rest ensures LexLess(ks[0], x) {
          assert x in multiset(rest);
          if x != k { assert x in ks[1..]; }
        }
      }
      [ks[0]] + rest
  }

  /** `sorted(keys)` for a list of distinct keys: ascending and a permutation
      of its input. */
  function SortKeys(ks: seq<string>): (r: seq<string>)
    requires Distinct(ks)
    ensures Ascending(r)
    ensures multiset(r) == multiset(ks)
  {
    if ks == [] then []
    else
      var init, last := ks[..|ks| - 1], ks[|ks| - 1];
      assert ks == init + [last];
      var sorted := SortKeys(init);
      assert last !in sorted by {
        assert last !in init;
        assert last !in multiset(sorted);
      }
      Insert(last, sorted)
  }

  // ---------------------------------------------------------------------------
  // The groups partition the scored rows.

  /** The total size of the groups named in `ks`. */
  function GroupSizes(ks: seq<string>, xs: seq<Record>): nat
  {
    if ks == [] then 0 else GroupSizes(ks[..|ks| - 1], xs) + |InGroup(xs, ks[|ks| - 1])|
  }

  /** The rows whose key lies in `ks`. */
  function InKeys(xs: seq<Record>, ks: set<string>): (g: seq<Record>)
  {
    if xs == [] then []
    else InKeys(xs[..|xs| - 1], ks) + if UseCaseKey(xs[|xs| - 1]) in ks then [xs[|xs| - 1]] else []
  }

  lemma {:induction false} InKeysSplit(xs: seq<Record>, k: string, ks: set<string>)
    requires k !in ks
    ensures |InKeys(xs, ks + {k})| == |InKeys(xs, ks)| + |InGroup(xs, k)|
  {
    if xs != [] {
      InKeysSplit(xs[..|xs| - 1], k, ks);
    }
  }

  lemma {:induction false} InKeysAll(xs: seq<Record>, ks: set<string>)
    requires forall r :: r in xs ==> UseCaseKey(r) in ks
    ensures InKeys(xs, ks) == xs
  {
    if xs != [] {
      var init, last := xs[..|xs| - 1], xs[|xs| - 1];
      assert xs == init + [last];
      InKeysAll(init, ks);
    }
  }

  lemma {:induction false} GroupSizesInKeys(ks: seq<string>, xs: seq<Record>)
    requires Distinct(ks)
    ensures GroupSizes(ks, xs) == |InKeys(xs, set k | k in ks)|
  {
    if ks == [] {
      assert (set k | k in ks) == {};
      InKeysNone(xs);
    } else {
      var init, last := ks[..|ks| - 1], ks[|ks| - 1];
      GroupSizesInKeys(init, xs);
      assert last !in init;
      assert (set k | k in ks) == (set k | k in init) + {last} by {
        assert ks == init + [last];
      }
      InKeysSplit(xs, last, set k | k in init);
    }
  }

  lemma {:induction false} InKeysNone(xs: seq<Record>)
    ensures InKeys(xs, {}) == []
  {
    if xs != [] { InKeysNone(xs[..|xs| - 1]); }
  }

  /** Every row lands in exactly one of a list of distinct keys covering all
      the rows' keys, so the group sizes add up to the number of rows. */
  lemma GroupsPartition(ks: seq<string>, xs: seq<Record>)
    requires Distinct(ks)
    requires forall j :: 0 <= j < |xs| ==> UseCaseKey(xs[j]) in ks
    ensures GroupSizes(ks, xs) == |xs|
  {
    GroupSizesInKeys(ks, xs);
    assert forall r :: r in xs ==> UseCaseKey(r) in (set k | k in ks);
    InKeysAll(xs, set k | k in ks);
  }

  function LineSizes(lines: seq<GroupLine>): nat
  {
    if lines == [] then 0 else LineSizes(lines[..|lines| - 1]) + lines[|lines| - 1].n
  }

  function LineKeys(lines: seq<GroupLine>): (ks: seq<string>)
    ensures |ks| == |lines|
  {
    if lines == [] then [] else LineKeys(lines[..|lines| - 1]) + [lines[|lines| - 1].useCase]
  }

  /** The printed line for one group. */
  function LineFor(uc: string, group: Group): GroupLine
    requires group.ocqs != [] && group.viols != []
  {
    GroupLine(uc, |group.ocqs|, Mean(group.ocqs), 100.0 * Mean(group.viols))
  }

  /** The line for one non-empty group: its key, size and means. */
  ghost predicate DescribesGroup(line: GroupLine, scored: seq<Record>)
  {
    var g := InGroup(scored, line.useCase);
    && g != [] && line.n == |g|
    && line.meanOcq == Mean(Ocqs(g))
    && line.violPercent == 100.0 * Mean(Viols(g))
  }

  /** A key some row carries gets a line that describes its group. */
  lemma LineForDescribes(scored: seq<Record>, uc: string)
    requires HasKey(scored, uc)
    ensures GroupOf(scored, uc).ocqs != [] && GroupOf(scored, uc).viols != []
    ensures DescribesGroup(LineFor(uc, GroupOf(scored, uc)), scored)
  {
    KeyNonEmptyGroup(scored, uc);
  }

  /** Appending a line extends the key list and the size total by that line. */
  lemma LinesSnoc(prev: seq<GroupLine>, line: GroupLine)
    ensures LineKeys(prev + [line]) == LineKeys(prev) + [line.useCase]
    ensures LineSizes(prev + [line]) == LineSizes(prev) + line.n
  {
    assert (prev + [line])[..|prev|] == prev;
  }

  /** One more key extends the key prefix and adds its group's size. */
  lemma GroupSizesSnoc(keys: seq<string>, i: nat, xs: seq<Record>)
    requires i < |keys|
    ensures keys[..i + 1] == keys[..i] + [keys[i]]
    ensures GroupSizes(keys[..i + 1], xs) == GroupSizes(keys[..i], xs) + |InGroup(xs, keys[i])|
  {
    assert keys[..i + 1][..i] == keys[..i];
  }

  /** Appending a line that describes its group keeps every line describing
      its group. */
  lemma DescribesSnoc(lines: seq<GroupLine>, line: GroupLine, scored: seq<Record>)
    requires forall j :: 0 <= j < |lines| ==> DescribesGroup(lines[j], scored)
    requires DescribesGroup(line, scored)
    ensures forall j :: 0 <= j < |lines| + 1 ==> DescribesGroup((lines + [line])[j], scored)
  {
  }

  /** The `for uc in sorted(by_uc.keys())` loop: one line per key, in the
      order given, each describing its group; their sizes add up to the
      keys' total group size. */
  method GroupLines(scored: seq<Record>, keys: seq<string>, groups: map<string, Group>)
    returns (lines: seq<GroupLine>)
    requires forall k :: k in keys ==> k in groups && groups[k] == GroupOf(scored, k) && HasKey(scored, k)
    ensures LineKeys(lines) == keys
    ensures forall i :: 0 <= i < |lines| ==> DescribesGroup(lines[i], scored)
    ensures LineSizes(lines) == GroupSizes(keys, scored)
  {
    lines := [];
    for i := 0 to |keys|
      invariant |lines| == i
      invariant LineKeys(lines) == keys[..i]
      invariant forall j :: 0 <= j < i ==> DescribesGroup(lines[j], scored)
      invariant LineSizes(lines) == GroupSizes(keys[..i], scored)
    {
      var uc := keys[i];
      var group := groups[uc];
      assert group == GroupOf(scored, uc);
      LineForDescribes(scored, uc);
      GroupSizesSnoc(keys, i, scored);
      var line := LineFor(uc, group);
      LinesSnoc(lines, line);
      DescribesSnoc(lines, line, scored);
      lines := lines + [line];
    }
    assert keys[..|keys|] == keys;
  }

  /** The report's computation: no statistic at all when nothing is scored;
      otherwise the scored and total counts, the overall means, and one line
      per use case present, in ascending order, each describing its group;
      the line counts add up to the scored count. */
  method Summarize(rows: seq<Record>) returns (rep: Summary)
    ensures rep.NoScoredRows? <==> Scored(rows) == []
    ensures rep.Summary? ==>
      var scored := Scored(rows);
      && scored != []
      && rep.scoredCount == |scored| && rep.totalCount == |rows| && rep.scoredCount <= rep.totalCount
      && rep.meanOcq == Mean(Ocqs(scored))
      && rep.violPercent == 100.0 * Mean(Viols(scored))
      && Ascending(LineKeys(rep.groups))
      && (forall k :: k in LineKeys(rep.groups) <==> HasKey(scored, k))
      && (forall i :: 0 <= i < |rep.groups| ==> DescribesGroup(rep.groups[i], scored))
      && LineSizes(rep.groups) == rep.scoredCount
  {
    var scored := Scored(rows);
    if scored == [] {
      return NoScoredRows;
    }
    var ocqs := Ocqs(scored);
    var viols := Viols(scored);
    var order, groups := GroupByUseCase(scored);
    var keys := SortKeys(order);
    assert forall k :: k in keys <==> k in order by {
      forall k ensures k in keys <==> k in order {
        assert k in keys <==> k in multiset(keys);
      }
    }
    assert Distinct(keys) by {
      forall i, j | 0 <= i < j < |keys| ensures keys[i] != keys[j] {
        LexIrreflexive(keys[i]);
      }
    }
    var lines := GroupLines(scored, keys, groups);
    GroupsPartition(keys, scored);
    rep := Summary(|scored|, |rows|, Mean(ocqs), 100.0 * Mean(viols), lines);
  }

  // ---------------------------------------------------------------------------
  // Reading back the batch runner's own rows.

  /** The record the report sees for a row the batch runner wrote. */
  function RecordOf(row: Batch.Row): Record
  {
    match row
    case MissingContext(_, _, _, uc, _) => Record(true, None, Some(uc), None)
    case MissingPersona(_, _, _, uc, _, _) => Record(true, None, Some(uc), None)
    case ScoredRow(_, _, _, uc, _, _, _, ocq, viol, _) => Record(false, Some(ocq), Some(uc), Some(viol as real))
  }

  function Records(rows: seq<Batch.Row>): seq<Record>
  {
    seq(|rows|, i requires 0 <= i < |rows| => RecordOf(rows[i]))
  }

  /** Of the batch runner's rows exactly the success rows are scored, and
      when their OCQs lie in [0, 1] (as the runner's do) so does the report's
      mean OCQ. */
  lemma BatchRowsReport(rows: seq<Batch.Row>)
    requires forall i :: 0 <= i < |rows| && rows[i].ScoredRow? ==> 0.0 <= rows[i].ocq <= 1.0
    ensures forall r :: r in Scored(Records(rows)) <==> exists i :: 0 <= i < |rows| && rows[i].ScoredRow? && r == RecordOf(rows[i])
    ensures Scored(Records(rows)) != [] ==> 0.0 <= Mean(Ocqs(Scored(Records(rows)))) <= 1.0
  {
    var recs := Records(rows);
    var scored := Scored(recs);
    forall r ensures r in scored <==> exists i :: 0 <= i < |rows| && rows[i].ScoredRow? && r == RecordOf(rows[i]) {
      if r in scored {
        var i :| 0 <= i < |recs| && recs[i] == r;
      }
      if exists i :: 0 <= i < |rows| && rows[i].ScoredRow? && r == RecordOf(rows[i]) {
        var i :| 0 <= i < |rows| && rows[i].ScoredRow? && r == RecordOf(rows[i]);
        assert recs[i] == r;
      }
    }
    if scored != [] {
      forall i | 0 <= i < |scored| ensures 0.0 <= Ocqs(scored)[i] <= 1.0 {
        assert scored[i] in scored;
      }
      MeanWithin(Ocqs(scored), 0.0, 1.0);
    }
  }

  /** The report over what the batch runner writes: given rows that meet
      `RunBatch`'s contract, the scored records are exactly its success rows,
      and their mean OCQ lies in [0, 1]. */
  lemma RunBatchReport(personas: seq<Scoring.Persona>, contexts: seq<Scoring.Context>, samples: seq<Batch.Sample>,
                       limit: int, runId: string, clock: nat -> string, rows: seq<Batch.Row>)
    requires |rows| == |Batch.Limit(samples, limit)|
    requires forall i :: 0 <= i < |rows| ==>
      rows[i] == Batch.RowFor(Batch.Limit(samples, limit)[i], Batch.IndexBy(contexts, Batch.ContextKey),
                              Batch.IndexBy(personas, Batch.PersonaKey), runId, clock(i))
    ensures forall r :: r in Scored(Records(rows)) <==> exists i :: 0 <= i < |rows| && rows[i].ScoredRow? && r == RecordOf(rows[i])
    ensures Scored(Records(rows)) != [] ==> 0.0 <= Mean(Ocqs(Scored(Records(rows)))) <= 1.0
  {
    var todo := Batch.Limit(samples, limit);
    var contextById, personaById := Batch.IndexBy(contexts, Batch.ContextKey), Batch.IndexBy(personas, Batch.PersonaKey);
    forall i | 0 <= i < |rows| && rows[i].ScoredRow? ensures 0.0 <= rows[i].ocq <= 1.0 {
      Batch.ScoredRowBounds(todo[i], contextById, personaById, runId, clock(i));
    }
    BatchRowsReport(rows);
  }
}
