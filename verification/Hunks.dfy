/** Unified diff hunks cut from an edit script.

    An operation is shown when a change lies within the context distance of it;
    the hunks are the maximal runs of shown operations. */
module Hunks {
  import opened Basics
  import opened EditScript
  import opened TextLines

  type Line = string
  type Ops = seq<Op<Line>>

  predicate IsChange(ops: Ops, i: int) {
    0 <= i < |ops| && !ops[i].kind.Equal?
  }

  /** A change lies within the context distance of operation k. */
  ghost predicate Near(ops: Ops, context: int, k: int) {
    exists c :: IsChange(ops, c) && -context <= k - c <= context
  }

  datatype Span = Span(start: nat, end: nat)

  ghost predicate Inside(spans: seq<Span>, k: int) {
    exists i :: 0 <= i < |spans| && spans[i].start <= k < spans[i].end
  }

  /** Non-empty, within n operations, and at least one operation apart. */
  ghost predicate Apart(spans: seq<Span>, n: int) {
    && (forall i :: 0 <= i < |spans| ==> spans[i].start < spans[i].end <= n)
    && (forall i, j :: 0 <= i < j < |spans| ==> spans[i].end < spans[j].start)
  }


  method ChangeIndices(ops: Ops) returns (changes: seq<nat>)
    ensures forall i, j :: 0 <= i < j < |changes| ==> changes[i] < changes[j]
    ensures forall c :: c in changes <==> IsChange(ops, c)
  {
    changes := [];
    var i := 0;
    while i < |ops|
      invariant 0 <= i <= |ops|
      invariant forall j :: 0 <= j < |changes| ==> changes[j] < i
      invariant forall j, k :: 0 <= j < k < |changes| ==> changes[j] < changes[k]
      invariant forall c :: c in changes <==> c < i && IsChange(ops, c)
    {
      if !ops[i].kind.Equal? {
        changes := changes + [i];
      }
      i := i + 1;
    }
  }

  ghost predicate NearSome(changes: seq<nat>, n: nat, context: int, k: int) {
    exists c :: 0 <= c < n <= |changes| && -context <= k - changes[c] <= context
  }

  lemma InsideAppend(spans: seq<Span>, s: Span, k: int)
    ensures Inside(spans + [s], k) <==> Inside(spans, k) || s.start <= k < s.end
  {
    if Inside(spans, k) {
      var i :| 0 <= i < |spans| && spans[i].start <= k < spans[i].end;
      assert (spans + [s])[i] == spans[i];
    }
    assert (spans + [s])[|spans|] == s;
  }

  lemma NearNext(changes: seq<nat>, n: nat, context: int, k: int)
    requires n < |changes|
    ensures NearSome(changes, n + 1, context, k) <==>
            NearSome(changes, n, context, k) || -context <= k - changes[n] <= context
  {
    if -context <= k - changes[n] <= context {
      assert NearSome(changes, n + 1, context, k);
    }
    if NearSome(changes, n, context, k) {
      var c :| 0 <= c < n <= |changes| && -context <= k - changes[c] <= context;
      assert 0 <= c < n + 1 <= |changes|;
    }
  }

  /** The first n changes show operation k exactly when it lies in a finished
      span or in the one that is open from `start`. */
  ghost predicate Tracks(changes: seq<nat>, n: nat, context: int, ranges: seq<Span>, start: int, k: int)
    requires 0 < n <= |changes|
  {
    NearSome(changes, n, context, k) <==> Inside(ranges, k) || start <= k <= changes[n - 1] + context
  }

  lemma TracksFuse(changes: seq<nat>, n: nat, context: int, ranges: seq<Span>, start: int, k: int)
    requires 0 < n < |changes| && 0 <= k && start <= Max(0, changes[n - 1] - context)
    requires 0 < changes[n] - changes[n - 1] <= 2 * context + 1 && Tracks(changes, n, context, ranges, start, k)
    ensures Tracks(changes, n + 1, context, ranges, start, k)
  {
    NearNext(changes, n, context, k);
  }

  lemma TracksSplit(changes: seq<nat>, n: nat, context: int, ranges: seq<Span>, start: int, size: int, k: int)
    requires 0 < n < |changes| && 0 <= k < size && 0 <= start && context >= 0
    requires changes[n - 1] < changes[n] && Tracks(changes, n, context, ranges, start, k)
    ensures var span := Span(start, Min(size, changes[n - 1] + context + 1));
            Tracks(changes, n + 1, context, ranges + [span], Max(0, changes[n] - context), k)
  {
    NearNext(changes, n, context, k);
    InsideAppend(ranges, Span(start, Min(size, changes[n - 1] + context + 1)), k);
  }

  lemma TracksAll(ops: Ops, changes: seq<nat>, context: int, ranges: seq<Span>, start: nat, k: int)
    requires changes != [] && 0 <= k < |ops| && context >= 0 && Tracks(changes, |changes|, context, ranges, start, k)
    requires forall c :: c in changes <==> IsChange(ops, c)
    ensures var span := Span(start, Min(|ops|, changes[|changes| - 1] + context + 1));
            Inside(ranges + [span], k) <==> Near(ops, context, k)
  {
    InsideAppend(ranges, Span(start, Min(|ops|, changes[|changes| - 1] + context + 1)), k);
    if Near(ops, context, k) {
      var c :| IsChange(ops, c) && -context <= k - c <= context;
      assert c in changes;
      var i :| 0 <= i < |changes| && changes[i] == c;
      assert NearSome(changes, |changes|, context, k);
    }
    if NearSome(changes, |changes|, context, k) {
      var i :| 0 <= i < |changes| && -context <= k - changes[i] <= context;
      assert changes[i] in changes;
    }
  }

  /** The hunks as spans of operations: exactly the operations near a change are
      shown, in maximal runs. */
  method HunkRanges(ops: Ops, context: int) returns (ranges: seq<Span>)
    requires context >= 0
    ensures Apart(ranges, |ops|)
    ensures forall k :: 0 <= k < |ops| ==> (Inside(ranges, k) <==> Near(ops, context, k))
  {
    hide Inside, NearSome, Tracks;
    var changes := ChangeIndices(ops);
    ranges := [];
    if |changes| == 0 {
      NothingShown(ops, context);
      return;
    }
    var fuse := 2 * context;
    var start := Max(0, changes[0] - context);
    forall k | 0 <= k < |ops|
      ensures Tracks(changes, 1, context, ranges, start, k)
    {
      TracksFirst(changes, context, k);
    }
    var i := 1;
    while i < |changes|
      invariant 1 <= i <= |changes| && 0 <= start <= Max(0, changes[i - 1] - context)
      invariant Apart(ranges, |ops|) && forall j :: 0 <= j < |ranges| ==> ranges[j].end < start
      invariant forall k :: 0 <= k < |ops| ==> Tracks(changes, i, context, ranges, start, k)
    {
      ghost var next := i + 1;
      assert changes[i - 1] < changes[i] && changes[i - 1] in changes && changes[i] in changes;
      if changes[i] - changes[i - 1] - 1 > fuse {
        var span := Span(start, Min(|ops|, changes[i - 1] + context + 1));
        ghost var done, from0 := ranges, start;
        ranges := ranges + [span];
        start := Max(0, changes[i] - context);
        forall k | 0 <= k < |ops|
          ensures Tracks(changes, next, context, ranges, start, k)
        {
          TracksSplit(changes, i, context, done, from0, |ops|, k);
        }
      } else {
        forall k | 0 <= k < |ops|
          ensures Tracks(changes, next, context, ranges, start, k)
        {
          TracksFuse(changes, i, context, ranges, start, k);
        }
      }
      i := i + 1;
    }
    assert changes[|changes| - 1] in changes;
    var span := Span(start, Min(|ops|, changes[|changes| - 1] + context + 1));
    forall k | 0 <= k < |ops|
      ensures Inside(ranges + [span], k) <==> Near(ops, context, k)
    {
      TracksAll(ops, changes, context, ranges, start, k);
    }
    ranges := ranges + [span];
  }

  lemma TracksFirst(changes: seq<nat>, context: int, k: int)
    requires changes != [] && 0 <= k
    ensures Tracks(changes, 1, context, [], Max(0, changes[0] - context), k)
  {
    NearNext(changes, 0, context, k);
  }

  lemma NothingShown(ops: Ops, context: int)
    requires forall c :: !IsChange(ops, c)
    ensures forall k :: !Inside([], k) && !Near(ops, context, k)
  {
  }

  // ---- hunks ----

  datatype HunkLine = HunkLine(kind: Kind, oldNo: nat, newNo: nat, text: Line, noNewline: bool)

  datatype Hunk = Hunk(oldStart: nat, oldLines: nat, newStart: nat, newLines: nat, lines: seq<HunkLine>)

  /** The operations before i that are not of the given kind. */
  function Before(ops: Ops, except: Kind, i: nat): (n: nat)
    requires i <= |ops|
  {
    |Lines(ops[..i], except)|
  }

  function LineAt(ops: Ops, i: nat): HunkLine
    requires i < |ops|
  {
    var op := ops[i];
    HunkLine(op.kind,
             if op.kind.Added? then 0 else Before(ops, Added, i) + 1,
             if op.kind.Removed? then 0 else Before(ops, Removed, i) + 1,
             op.line,
             !(op.line != "" && op.line[|op.line| - 1] == '\n') && !op.kind.Equal?)
  }

  /** The start and length of one side of a hunk. A side without lines starts at
      the line the hunk follows. */
  function StartCount(before: nat, after: nat): (nat, nat)
    requires before <= after
  {
    if after - before == 0 then (before, 0) else (before + 1, after - before)
  }

  lemma {:induction false} LinesConcat(s: Ops, t: Ops, except: Kind)
    ensures Lines(s + t, except) == Lines(s, except) + Lines(t, except)
  {
    if s == [] {
      assert s + t == t;
    } else {
      hide Lines;
      LinesConcat(s[1..], t, except);
      assert (s + t)[1..] == s[1..] + t && (s + t)[0] == s[0];
      LinesStep(s, except);
      LinesStep(s + t, except);
      ConcatAssoc(if s[0].kind == except then [] else [s[0].line], Lines(s[1..], except), Lines(t, except));
    }
  }

  lemma LinesStep(s: Ops, except: Kind)
    requires s != []
    ensures Lines(s, except) == (if s[0].kind == except then [] else [s[0].line]) + Lines(s[1..], except)
  {
  }

  lemma ConcatAssoc(s: seq<Line>, t: seq<Line>, u: seq<Line>)
    ensures (s + t) + u == s + (t + u)
  {
  }

  lemma BeforeGrows(ops: Ops, except: Kind, i: nat, j: nat)
    requires i <= j <= |ops|
    ensures Before(ops, except, j) == Before(ops, except, i) + |Lines(ops[i..j], except)|
  {
    assert ops[..j] == ops[..i] + ops[i..j];
    LinesConcat(ops[..i], ops[i..j], except);
  }

  lemma BeforeNext(ops: Ops, except: Kind, i: nat)
    requires i < |ops|
    ensures Before(ops, except, i + 1) == Before(ops, except, i) + if ops[i].kind == except then 0 else 1
  {
    BeforeGrows(ops, except, i, i + 1);
    assert ops[i..i + 1] == [ops[i]] && [ops[i]][1..] == [];
  }

  function HunkOf(ops: Ops, span: Span): Hunk
    requires span.start <= span.end <= |ops|
  {
    BeforeGrows(ops, Added, span.start, span.end);
    BeforeGrows(ops, Removed, span.start, span.end);
    var (a, m) := StartCount(Before(ops, Added, span.start), Before(ops, Added, span.end));
    var (b, n) := StartCount(Before(ops, Removed, span.start), Before(ops, Removed, span.end));
    Hunk(a, m, b, n,
         seq(span.end - span.start, i requires 0 <= i < span.end - span.start => LineAt(ops, span.start + i)))
  }

  ghost predicate Counts(pre: seq<nat>, ops: Ops, except: Kind) {
    |pre| == |ops| + 1 && forall i :: 0 <= i <= |ops| ==> pre[i] == Before(ops, except, i)
  }

  /** The number of old and new lines before every operation. */
  method Prefixes(ops: Ops) returns (preA: seq<nat>, preB: seq<nat>)
    ensures Counts(preA, ops, Added) && Counts(preB, ops, Removed)
  {
    var a, b := new nat[|ops| + 1](_ => 0), new nat[|ops| + 1](_ => 0);
    var i := 0;
    while i < |ops|
      invariant 0 <= i <= |ops|
      invariant forall j :: 0 <= j <= i ==> a[j] == Before(ops, Added, j)
      invariant forall j :: 0 <= j <= i ==> b[j] == Before(ops, Removed, j)
    {
      BeforeNext(ops, Added, i);
      BeforeNext(ops, Removed, i);
      a[i + 1], b[i + 1] := a[i], b[i];
      if !ops[i].kind.Added? {
        a[i + 1] := a[i + 1] + 1;
      }
      if !ops[i].kind.Removed? {
        b[i + 1] := b[i + 1] + 1;
      }
      i := i + 1;
    }
    preA, preB := a[..], b[..];
  }

  /** The hunks show exactly the operations near a change, in maximal runs. */
  ghost predicate Cutting(ops: Ops, context: int, spans: seq<Span>, hunks: seq<Hunk>) {
    && Apart(spans, |ops|)
    && (forall k :: 0 <= k < |ops| ==> (Inside(spans, k) <==> Near(ops, context, k)))
    && |hunks| == |spans|
    && (forall i :: 0 <= i < |spans| ==> spans[i].start <= spans[i].end <= |ops| && hunks[i] == HunkOf(ops, spans[i]))
  }

  /** The hunks between two file versions. */
  method Cut(before: string, after: string, context: int, eq: (Line, Line) -> bool) returns (hunks: seq<Hunk>)
    requires context >= 0
    ensures exists spans :: Cutting(Grid(SplitLines(before), SplitLines(after), eq).Diff(), context, spans, hunks)
  {
    var ops := LinesWith(SplitLines(before), SplitLines(after), eq);
    hide Grid.Diff, Inside, Near, Before, HunkOf, Counts;
    var ranges := HunkRanges(ops, context);
    hunks := [];
    var preA, preB := Prefixes(ops);
    var n := 0;
    while n < |ranges|
      invariant 0 <= n <= |ranges| && |hunks| == n
      invariant forall i :: 0 <= i < n ==> hunks[i] == HunkOf(ops, ranges[i])
    {
      var hunk := CutOne(ops, ranges[n], preA, preB);
      hunks := hunks + [hunk];
      n := n + 1;
    }
    assert Cutting(ops, context, ranges, hunks);
  }

  /** The hunk line of an operation after a old and b new lines. */
  method MakeLine(op: Op<Line>, a: nat, b: nat) returns (line: HunkLine)
    ensures line.kind == op.kind && line.text == op.line
    ensures line.oldNo == (if op.kind.Added? then 0 else a + 1) && line.newNo == (if op.kind.Removed? then 0 else b + 1)
    ensures line.noNewline <==> !op.kind.Equal? && (op.line == "" || op.line[|op.line| - 1] != '\n')
  {
    line := HunkLine(op.kind, 0, 0, op.line, false);
    if !op.kind.Added? {
      line := line.(oldNo := a + 1);
    }
    if !op.kind.Removed? {
      line := line.(newNo := b + 1);
    }
    var hasNewline := op.line != "" && op.line[|op.line| - 1] == '\n';
    line := line.(noNewline := !hasNewline && !op.kind.Equal?);
  }

  method CutOne(ops: Ops, r: Span, preA: seq<nat>, preB: seq<nat>) returns (hunk: Hunk)
    requires r.start <= r.end <= |ops| && Counts(preA, ops, Added) && Counts(preB, ops, Removed)
    ensures hunk == HunkOf(ops, r)
  {
    hide Before;
    BeforeGrows(ops, Added, r.start, r.end);
    BeforeGrows(ops, Removed, r.start, r.end);
    var (aStart, aCount) := StartCount(preA[r.start], preA[r.end]);
    var (bStart, bCount) := StartCount(preB[r.start], preB[r.end]);
    var lines := [];
    var i := r.start;
    while i < r.end
      invariant r.start <= i <= r.end && |lines| == i - r.start
      invariant forall k :: 0 <= k < |lines| ==> lines[k] == LineAt(ops, r.start + k)
    {
      var line := MakeLine(ops[i], preA[i], preB[i]);
      lines := lines + [line];
      i := i + 1;
    }
    hunk := Hunk(aStart, aCount, bStart, bCount, lines);
  }

  // ---- what the hunks mean ----

  /** The lines one side of the hunk shows. */
  function Shown(lines: seq<HunkLine>, except: Kind): seq<Line> {
    if lines == [] then []
    else (if lines[0].kind == except then [] else [lines[0].text]) + Shown(lines[1..], except)
  }

  /** The number of lines before a hunk, read from its header. */
  function Offset(start: nat, count: nat): int {
    if count == 0 then start else start - 1
  }

  datatype Patched = Failed | Patched(lines: seq<Line>, at: nat)

  /** Applying hunks the way a patch program does: every hunk must find its old
      lines where its header says, and must land on its new line number. */
  function Apply(lines: seq<Line>, hunks: seq<Hunk>, done: nat, written: nat): Patched {
    if hunks == [] then
      if done <= |lines| then Patched(lines[done..], written + |lines| - done) else Failed
    else
      var h := hunks[0];
      var p := Offset(h.oldStart, h.oldLines);
      if done <= p && p + h.oldLines <= |lines| && lines[p..p + h.oldLines] == Shown(h.lines, Added)
         && Offset(h.newStart, h.newLines) == written + (p - done) && |Shown(h.lines, Removed)| == h.newLines
      then
        var rest := Apply(lines, hunks[1..], p + h.oldLines, written + (p - done) + h.newLines);
        if rest.Failed? then Failed
        else Patched(lines[done..p] + Shown(h.lines, Removed) + rest.lines, rest.at)
      else Failed
  }

  /** An exact script reads as the old text on one side and the new on the other. */
  lemma ExactSides(before: seq<Line>, after: seq<Line>, ops: Ops)
    requires Grid(before, after, Exact).Script(ops, 0, 0)
    ensures Lines(ops, Added) == before && Lines(ops, Removed) == after
  {
    hide Grid.Script, Lines;
    var g := Grid(before, after, Exact);
    g.OldSide(ops, 0, 0);
    g.NewSide(ops, 0, 0);
    forall k | 0 <= k < |after|
      ensures Lines(ops, Removed)[k] == after[k]
    {
      var shown, line := Lines(ops, Removed)[k], after[0 + k];
      assert shown == line || Exact(shown, line);
    }
  }

  /** The operations from i to j, read on each side of an exact script. */
  lemma StretchTexts(before: seq<Line>, after: seq<Line>, ops: Ops, i: nat, j: nat)
    requires Grid(before, after, Exact).Script(ops, 0, 0) && i <= j <= |ops|
    ensures Before(ops, Added, i) <= Before(ops, Added, j) <= |before|
    ensures Lines(ops[i..j], Added) == before[Before(ops, Added, i)..Before(ops, Added, j)]
    ensures Before(ops, Removed, i) <= Before(ops, Removed, j) <= |after|
    ensures Lines(ops[i..j], Removed) == after[Before(ops, Removed, i)..Before(ops, Removed, j)]
  {
    hide Grid.Script, Lines, Before;
    ExactSides(before, after, ops);
    Stretch(ops, Added, i, j);
    Stretch(ops, Removed, i, j);
  }

  lemma Stretch(ops: Ops, except: Kind, i: nat, j: nat)
    requires i <= j <= |ops|
    ensures Before(ops, except, i) <= Before(ops, except, j) <= |Lines(ops, except)|
    ensures Lines(ops[i..j], except) == Lines(ops, except)[Before(ops, except, i)..Before(ops, except, j)]
  {
    assert ops == ops[..i] + (ops[i..j] + ops[j..]);
    LinesConcat(ops[..i], ops[i..j] + ops[j..], except);
    LinesConcat(ops[i..j], ops[j..], except);
    BeforeGrows(ops, except, i, j);
  }

  lemma {:induction false} ShownIsLines(ops: Ops, i: nat, j: nat, lines: seq<HunkLine>, except: Kind)
    requires i <= j <= |ops| && |lines| == j - i && forall k :: 0 <= k < j - i ==> lines[k] == LineAt(ops, i + k)
    ensures Shown(lines, except) == Lines(ops[i..j], except)
    decreases j - i
  {
    if i < j {
      assert ops[i..j][1..] == ops[i + 1..j];
      ShownIsLines(ops, i + 1, j, lines[1..], except);
    }
  }

  lemma {:induction false} EqualStretch(ops: Ops)
    requires forall i :: 0 <= i < |ops| ==> ops[i].kind.Equal?
    ensures Lines(ops, Added) == Lines(ops, Removed)
  {
    if ops != [] {
      EqualStretch(ops[1..]);
    }
  }

  lemma HunkReads(ops: Ops, span: Span)
    requires span.start <= span.end <= |ops|
    ensures var h := HunkOf(ops, span);
            && Shown(h.lines, Added) == Lines(ops[span.start..span.end], Added)
            && Shown(h.lines, Removed) == Lines(ops[span.start..span.end], Removed)
            && Offset(h.oldStart, h.oldLines) == Before(ops, Added, span.start)
            && Offset(h.newStart, h.newLines) == Before(ops, Removed, span.start)
            && h.oldLines == Before(ops, Added, span.end) - Before(ops, Added, span.start)
            && h.newLines == Before(ops, Removed, span.end) - Before(ops, Removed, span.start)
  {
    hide Before, Lines, Shown;
    var h := HunkOf(ops, span);
    ShownIsLines(ops, span.start, span.end, h.lines, Added);
    ShownIsLines(ops, span.start, span.end, h.lines, Removed);
    BeforeGrows(ops, Added, span.start, span.end);
    BeforeGrows(ops, Removed, span.start, span.end);
  }

  /** No operation from `lo` to `hi` is a change. */
  ghost predicate Quiet(ops: Ops, lo: int, hi: int) {
    forall i :: lo <= i < hi ==> !IsChange(ops, i)
  }

  /** Spans that cut every change out of the script, with the rest kept lines. */
  ghost predicate Cuts(spans: seq<Span>, ops: Ops, k: nat)
    decreases |spans|
  {
    if spans == [] then k <= |ops| && Quiet(ops, k, |ops|)
    else
      && k <= spans[0].start <= spans[0].end <= |ops|
      && Quiet(ops, k, spans[0].start) && Cuts(spans[1..], ops, spans[0].end)
  }

  lemma QuietTexts(before: seq<Line>, after: seq<Line>, ops: Ops, i: nat, j: nat)
    requires Grid(before, after, Exact).Script(ops, 0, 0) && i <= j <= |ops| && Quiet(ops, i, j)
    ensures Before(ops, Added, i) <= Before(ops, Added, j) <= |before|
    ensures Before(ops, Removed, i) <= Before(ops, Removed, j) <= |after|
    ensures before[Before(ops, Added, i)..Before(ops, Added, j)] ==
            after[Before(ops, Removed, i)..Before(ops, Removed, j)]
  {
    hide Grid.Script, Lines, Before;
    StretchTexts(before, after, ops, i, j);
    forall k | 0 <= k < |ops[i..j]|
      ensures ops[i..j][k].kind.Equal?
    {
      assert !IsChange(ops, i + k);
    }
    EqualStretch(ops[i..j]);
  }

  function HunksOf(ops: Ops, spans: seq<Span>): (hs: seq<Hunk>)
    requires forall s :: s in spans ==> s.start <= s.end <= |ops|
    ensures |hs| == |spans| && forall i :: 0 <= i < |spans| ==> hs[i] == HunkOf(ops, spans[i])
  {
    if spans == [] then [] else [HunkOf(ops, spans[0])] + HunksOf(ops, spans[1..])
  }

  /** One hunk that finds its lines is applied before the rest. */
  lemma ApplyStep(lines: seq<Line>, h: Hunk, hunks: seq<Hunk>, done: nat, written: nat, p: nat, added: seq<Line>,
                  rest: Patched)
    requires p == Offset(h.oldStart, h.oldLines) && done <= p && p + h.oldLines <= |lines|
    requires lines[p..p + h.oldLines] == Shown(h.lines, Added) && added == Shown(h.lines, Removed)
    requires |added| == h.newLines
    requires Offset(h.newStart, h.newLines) == written + (p - done) && rest.Patched?
    requires rest == Apply(lines, hunks, p + h.oldLines, written + (p - done) + h.newLines)
    ensures Apply(lines, [h] + hunks, done, written) == Patched(lines[done..p] + added + rest.lines, rest.at)
  {
    hide Shown, Offset;
    assert ([h] + hunks)[1..] == hunks;
  }

  lemma ApplyRest(lines: seq<Line>, done: nat, written: nat)
    requires done <= |lines|
    ensures Apply(lines, [], done, written) == Patched(lines[done..], written + |lines| - done)
  {
  }

  lemma Three(s: seq<Line>, i: nat, j: nat, k: nat)
    requires i <= j <= k <= |s|
    ensures s[i..j] + s[j..k] + s[k..] == s[i..]
  {
  }

  lemma {:induction false} ApplyFrom(before: seq<Line>, after: seq<Line>, ops: Ops, spans: seq<Span>, k: nat)
    requires Grid(before, after, Exact).Script(ops, 0, 0) && Cuts(spans, ops, k)
    requires forall s :: s in spans ==> s.start <= s.end <= |ops|
    ensures k <= |ops| && Before(ops, Removed, k) <= |after|
    ensures Apply(before, HunksOf(ops, spans), Before(ops, Added, k), Before(ops, Removed, k)) ==
            Patched(after[Before(ops, Removed, k)..], |after|)
    decreases |spans|
  {
    hide Grid.Script, Before, HunkOf, Shown, Lines, Quiet, Apply, Offset;
    var a, b := Before(ops, Added, k), Before(ops, Removed, k);
    if spans == [] {
      QuietTexts(before, after, ops, k, |ops|);
      AtEnd(before, after, ops);
      assert before[a..|before|] == before[a..] && after[b..|after|] == after[b..];
      ApplyRest(before, a, b);
    } else {
      var span, rest := spans[0], spans[1..];
      var h := HunkOf(ops, span);
      ApplyFrom(before, after, ops, rest, span.end);
      QuietTexts(before, after, ops, k, span.start);
      StretchTexts(before, after, ops, span.start, span.end);
      HunkReads(ops, span);
      var b', b'' := Before(ops, Removed, span.start), Before(ops, Removed, span.end);
      Three(after, b, b', b'');
      ApplyStep(before, h, HunksOf(ops, rest), a, b, Before(ops, Added, span.start), after[b'..b''],
                Patched(after[b''..], |after|));
    }
  }

  lemma AtEnd(before: seq<Line>, after: seq<Line>, ops: Ops)
    requires Grid(before, after, Exact).Script(ops, 0, 0)
    ensures Before(ops, Added, |ops|) == |before| && Before(ops, Removed, |ops|) == |after|
  {
    hide Grid.Script, Lines;
    ExactSides(before, after, ops);
    assert ops[..|ops|] == ops;
  }

  /** Where the gap before span i begins and ends. */
  function GapStart(spans: seq<Span>, i: nat): nat
    requires i <= |spans|
  {
    if i == 0 then 0 else spans[i - 1].end
  }

  function GapEnd(spans: seq<Span>, i: nat, n: nat): nat
    requires i <= |spans|
  {
    if i < |spans| then spans[i].start else n
  }

  lemma GapIsOutside(spans: seq<Span>, n: nat, i: nat, c: int)
    requires i <= |spans| && Apart(spans, n) && GapStart(spans, i) <= c < GapEnd(spans, i, n)
    ensures !Inside(spans, c)
  {
    forall j | 0 <= j < |spans|
      ensures !(spans[j].start <= c < spans[j].end)
    {
      if j < i {
        assert spans[j].end <= GapStart(spans, i);
      } else {
        assert GapEnd(spans, i, n) <= spans[j].start;
      }
    }
  }

  /** Spans that show everything near a change cut every change out. */
  lemma {:induction false} ShowingCuts(ops: Ops, spans: seq<Span>, i: nat)
    requires i <= |spans| && Apart(spans, |ops|)
    requires forall k :: IsChange(ops, k) ==> Inside(spans, k)
    ensures Cuts(spans[i..], ops, GapStart(spans, i))
    decreases |spans| - i
  {
    hide Inside, IsChange;
    forall c | GapStart(spans, i) <= c < GapEnd(spans, i, |ops|)
      ensures !IsChange(ops, c)
    {
      GapIsOutside(spans, |ops|, i, c);
    }
    if i < |spans| {
      assert i > 0 ==> spans[i - 1].end < spans[i].start;
      assert spans[i..][1..] == spans[i + 1..];
      ShowingCuts(ops, spans, i + 1);
    }
  }

  /** Applying the hunks to the old file gives the new one: every hunk finds its
      lines at the place its header names, on both sides. */
  lemma HunksApplyBack(before: string, after: string, context: int, spans: seq<Span>, hunks: seq<Hunk>)
    requires context >= 0 && Cutting(Grid(SplitLines(before), SplitLines(after), Exact).Diff(), context, spans, hunks)
    ensures Apply(SplitLines(before), hunks, 0, 0) == Patched(SplitLines(after), |SplitLines(after)|)
    ensures Join(Apply(SplitLines(before), hunks, 0, 0).lines) == after
  {
    hide Grid.Diff, Grid.Script, Inside, Apply, HunkOf, HunksOf, Cuts, SplitLines, Join;
    var g := Grid(SplitLines(before), SplitLines(after), Exact);
    var ops := g.Diff();
    g.DiffIsMinimal();
    forall k | IsChange(ops, k)
      ensures Inside(spans, k)
    {
      assert Near(ops, context, k);
    }
    assert hunks == HunksOf(ops, spans);
    ShowingCuts(ops, spans, 0);
    assert spans[0..] == spans;
    ApplyFrom(g.a, g.b, ops, spans, 0);
    assert ops[..0] == [] && g.b[0..] == g.b;
    JoinSplitLines(after);
  }

  // ---- finding a line ----

  datatype DiffSide = Left | Right

  datatype Found = Missing | Found(hunk: Hunk, line: HunkLine)

  predicate Answers(line: HunkLine, side: DiffSide, lineNo: int) {
    if side.Left? then !line.kind.Added? && line.oldNo == lineNo else !line.kind.Removed? && line.newNo == lineNo
  }

  /** The first hunk line that carries the number on the given side. */
  method HunkLineAt(hunks: seq<Hunk>, side: DiffSide, lineNo: int) returns (found: Found)
    ensures found.Found? ==> found.hunk in hunks && found.line in found.hunk.lines && Answers(found.line, side, lineNo)
    ensures found.Missing? ==> forall h, l :: h in hunks && l in h.lines ==> !Answers(l, side, lineNo)
  {
    var i := 0;
    while i < |hunks|
      invariant 0 <= i <= |hunks|
      invariant forall h, l :: h in hunks[..i] && l in h.lines ==> !Answers(l, side, lineNo)
    {
      var hunk := hunks[i];
      var j := 0;
      while j < |hunk.lines|
        invariant 0 <= j <= |hunk.lines|
        invariant forall l :: l in hunk.lines[..j] ==> !Answers(l, side, lineNo)
      {
        if Answers(hunk.lines[j], side, lineNo) {
          return Found(hunk, hunk.lines[j]);
        }
        j := j + 1;
      }
      assert hunks[..i + 1] == hunks[..i] + [hunk] && hunk.lines[..j] == hunk.lines;
      i := i + 1;
    }
    assert hunks[..i] == hunks;
    found := Missing;
  }

  /** The kind of operation a side does not have. */
  function Without(side: DiffSide): Kind {
    if side.Left? then Added else Removed
  }

  /** Operation i is line n of the side. */
  predicate NumberedAt(ops: Ops, i: nat, side: DiffSide, lineNo: int)
    requires i < |ops|
  {
    ops[i].kind != Without(side) && Before(ops, Without(side), i) + 1 == lineNo
  }

  /** The line of a file that an operation carries, up to the line relation where
      the operation keeps the old side's version of a new line. */
  ghost predicate IsLine(before: seq<Line>, after: seq<Line>, eq: (Line, Line) -> bool, side: DiffSide, lineNo: int,
                         text: Line) {
    if side.Left? then 1 <= lineNo <= |before| && text == before[lineNo - 1]
    else 1 <= lineNo <= |after| && (text == after[lineNo - 1] || eq(text, after[lineNo - 1]))
  }

  lemma SideLines(before: seq<Line>, after: seq<Line>, eq: (Line, Line) -> bool, ops: Ops)
    requires Grid(before, after, eq).Script(ops, 0, 0)
    ensures Lines(ops, Added) == before && |Lines(ops, Removed)| == |after|
    ensures forall k :: 0 <= k < |after| ==> IsLine(before, after, eq, Right, k + 1, Lines(ops, Removed)[k])
  {
    hide Grid.Script, Lines;
    var g := Grid(before, after, eq);
    g.OldSide(ops, 0, 0);
    g.NewSide(ops, 0, 0);
    forall k | 0 <= k < |after| ensures IsLine(before, after, eq, Right, k + 1, Lines(ops, Removed)[k]) {
      var shown, line := Lines(ops, Removed)[k], after[0 + k];
      assert shown == line || eq(shown, line);
    }
  }

  /** An operation numbered n on a side carries line n of that file. */
  lemma NumberedLine(before: seq<Line>, after: seq<Line>, eq: (Line, Line) -> bool, ops: Ops, i: nat, side: DiffSide,
                     lineNo: int)
    requires Grid(before, after, eq).Script(ops, 0, 0) && i < |ops| && NumberedAt(ops, i, side, lineNo)
    ensures IsLine(before, after, eq, side, lineNo, ops[i].line)
  {
    hide Grid.Script, Before;
    SideLines(before, after, eq, ops);
    OneLine(ops, Without(side), i);
  }

  lemma OneLine(ops: Ops, except: Kind, i: nat)
    requires i < |ops| && ops[i].kind != except
    ensures Before(ops, except, i) < |Lines(ops, except)| && Lines(ops, except)[Before(ops, except, i)] == ops[i].line
  {
    hide Before;
    Stretch(ops, except, i, i + 1);
    BeforeNext(ops, except, i);
    assert ops[i..i + 1] == [ops[i]] && [ops[i]][1..] == [];
    assert Lines(ops[i..i + 1], except) == [ops[i].line];
    assert Lines(ops[i..i + 1], except)[0] == ops[i].line;
  }

  lemma LineAtAnswers(ops: Ops, i: nat, side: DiffSide, lineNo: int)
    requires i < |ops| && lineNo >= 1
    ensures Answers(LineAt(ops, i), side, lineNo) <==> NumberedAt(ops, i, side, lineNo)
    ensures LineAt(ops, i).text == ops[i].line
  {
    hide Before;
  }

  /** No line of a hunk is numbered below one. */
  lemma AnswersFromOne(ops: Ops, i: nat, side: DiffSide, lineNo: int)
    requires i < |ops| && Answers(LineAt(ops, i), side, lineNo)
    ensures lineNo >= 1
  {
    hide Before;
  }

  lemma HunkLines(ops: Ops, span: Span, line: HunkLine) returns (i: nat)
    requires span.start <= span.end <= |ops| && line in HunkOf(ops, span).lines
    ensures span.start <= i < span.end && line == LineAt(ops, i)
  {
    hide Before, LineAt;
    var h := HunkOf(ops, span);
    var j :| 0 <= j < |h.lines| && h.lines[j] == line;
    i := span.start + j;
  }

  /** A hunk line that answers for line n of a side is that line of that file. */
  lemma AnswerIsTheLine(before: seq<Line>, after: seq<Line>, eq: (Line, Line) -> bool, ops: Ops, span: Span,
                        line: HunkLine, side: DiffSide, lineNo: int)
    requires Grid(before, after, eq).Script(ops, 0, 0) && span.start <= span.end <= |ops|
    requires line in HunkOf(ops, span).lines && Answers(line, side, lineNo)
    ensures IsLine(before, after, eq, side, lineNo, line.text)
  {
    hide Grid.Script, Before, LineAt, HunkOf, Answers, NumberedAt, IsLine;
    var i := HunkLines(ops, span, line);
    AnswersFromOne(ops, i, side, lineNo);
    LineAtAnswers(ops, i, side, lineNo);
    NumberedLine(before, after, eq, ops, i, side, lineNo);
  }

  /** A line of a file is shown exactly when its operation lies in a hunk, and
      then the search for its number finds it. */
  lemma ShownLineAnswers(ops: Ops, span: Span, i: nat, side: DiffSide)
    requires span.start <= i < span.end <= |ops| && ops[i].kind != Without(side)
    ensures LineAt(ops, i) in HunkOf(ops, span).lines
    ensures Answers(LineAt(ops, i), side, Before(ops, Without(side), i) + 1)
  {
    assert HunkOf(ops, span).lines[i - span.start] == LineAt(ops, i);
  }

  /** Line n of the side lies within the context of a change. */
  ghost predicate NearLine(ops: Ops, context: int, side: DiffSide, lineNo: int) {
    exists i :: 0 <= i < |ops| && NumberedAt(ops, i, side, lineNo) && Near(ops, context, i)
  }

  ghost predicate Answered(hunks: seq<Hunk>, side: DiffSide, lineNo: int) {
    exists h, l :: h in hunks && l in h.lines && Answers(l, side, lineNo)
  }

  /** The hunks have an answer for a number exactly when that line is near a change. */
  lemma AnsweredIffNear(ops: Ops, context: int, spans: seq<Span>, hunks: seq<Hunk>, side: DiffSide, lineNo: int)
    requires Cutting(ops, context, spans, hunks)
    ensures Answered(hunks, side, lineNo) <==> NearLine(ops, context, side, lineNo)
  {
    hide Before, LineAt, HunkOf, Answers, NumberedAt, Near;
    if h, l :| h in hunks && l in h.lines && Answers(l, side, lineNo) {
      var k :| 0 <= k < |hunks| && hunks[k] == h;
      var i := HunkLines(ops, spans[k], l);
      AnswersFromOne(ops, i, side, lineNo);
      LineAtAnswers(ops, i, side, lineNo);
      assert Inside(spans, i);
    }
    if i :| 0 <= i < |ops| && NumberedAt(ops, i, side, lineNo) && Near(ops, context, i) {
      var k :| 0 <= k < |spans| && spans[k].start <= i < spans[k].end;
      NumberedKind(ops, i, side, lineNo);
      ShownLineAnswers(ops, spans[k], i, side);
      assert hunks[k] in hunks;
    }
  }

  lemma NumberedKind(ops: Ops, i: nat, side: DiffSide, lineNo: int)
    requires i < |ops| && NumberedAt(ops, i, side, lineNo)
    ensures ops[i].kind != Without(side) && lineNo == Before(ops, Without(side), i) + 1
  {
  }

  /** Looks a line up in the hunks of two file versions: it is found exactly when
      that line of that file lies within the context of a change, and what is
      found is that line. */
  method FindLine(before: string, after: string, context: int, eq: (Line, Line) -> bool, side: DiffSide, lineNo: int)
    returns (found: Found)
    requires context >= 0
    ensures found.Found? <==> NearLine(Grid(SplitLines(before), SplitLines(after), eq).Diff(), context, side, lineNo)
    ensures found.Found? ==> IsLine(SplitLines(before), SplitLines(after), eq, side, lineNo, found.line.text)
  {
    hide Grid.Diff, Grid.Script, NearLine, IsLine, HunkOf, Answers, SplitLines, Inside, Near;
    var hunks := Cut(before, after, context, eq);
    found := HunkLineAt(hunks, side, lineNo);
    ghost var g := Grid(SplitLines(before), SplitLines(after), eq);
    ghost var spans :| Cutting(g.Diff(), context, spans, hunks);
    AnsweredIffNear(g.Diff(), context, spans, hunks, side, lineNo);
    if found.Found? {
      g.DiffIsMinimal();
      ghost var k :| 0 <= k < |hunks| && hunks[k] == found.hunk;
      AnswerIsTheLine(g.a, g.b, eq, g.Diff(), spans[k], found.line, side, lineNo);
    }
  }
}
