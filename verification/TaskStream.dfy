/**
 The ordered result stream of one task: executors append chunks, readers replay them.
 Requests and readers interleave: an append checks the stored rows and commits its own row
 later, a reader queries the rows and then yields them one at a time.
 */
module TaskStream {
  import opened Wrappers

  datatype Chunk = Chunk(data: string, isFinal: bool)

  type Store = map<nat, Chunk>

  datatype ChunkRow = ChunkRow(sequence: nat, chunk: Chunk)

  datatype TaskStatus = Pending | Acked | Running | Closed

  /* ---------- appends ---------- */

  datatype Check = Existing(chunk: Chunk) | Conflict | NotContiguous | Proceed

  /** What an append decides from the rows it reads. */
  function CheckAppend(stored: Store, sequence: nat, chunk: Chunk): Check {
    if sequence in stored then
      if stored[sequence] != chunk then Conflict else Existing(stored[sequence])
    else if sequence > 0 && sequence - 1 !in stored then NotContiguous
    else Proceed
  }

  /** The insert, guarded by the unique constraint on task and sequence. */
  function Insert(stored: Store, sequence: nat, chunk: Chunk): Result<Store, ()> {
    if sequence in stored then Err(()) else Ok(stored[sequence := chunk])
  }

  /* ---------- replay ---------- */

  /** A reader: the next sequence it waits for, what it yielded, the rows of its last query not
      yet looked at, and whether it has ended after a final chunk. */
  datatype Reader = Reader(next: nat, output: seq<Chunk>, rows: seq<ChunkRow>, ended: bool)

  const NEW_READER := Reader(0, [], [], false)

  /** The rows from `next` on, in ascending order of sequence. */
  ghost predicate IsQueryResult(rows: seq<ChunkRow>, stored: Store, next: nat) {
    && (forall i, j :: 0 <= i < j < |rows| ==> rows[i].sequence < rows[j].sequence)
    && (forall i :: 0 <= i < |rows| ==> rows[i].sequence >= next && RowStored(stored, rows[i]))
    && (forall s :: s in stored && s >= next ==> exists i :: 0 <= i < |rows| && rows[i].sequence == s)
  }

  /** Looks at one row: skips it unless it is the awaited one, and ends after a final chunk. */
  function Emit(r: Reader): Reader
    requires r.rows != []
  {
    var row := r.rows[0];
    if row.sequence != r.next then r.(rows := r.rows[1..])
    else Reader(r.next + 1, r.output + [row.chunk], if row.chunk.isFinal then [] else r.rows[1..], row.chunk.isFinal)
  }

  function EmitAll(r: Reader): Reader
    decreases |r.rows|
  {
    if r.rows == [] then r else EmitAll(Emit(r))
  }

  /* ---------- one request at a time ---------- */

  datatype AppendError = SequenceConflict | SequenceGap

  class StreamStore {
    var chunks: Store
    var status: TaskStatus

    /** One append request that runs alone. */
    method AppendChunk(sequence: nat, chunk: Chunk) returns (result: Result<Chunk, AppendError>)
      modifies this
      ensures match CheckAppend(old(chunks), sequence, chunk)
        case Existing(c) => result == Ok(c) && chunks == old(chunks) && status == old(status)
        case Conflict => result == Err(SequenceConflict) && chunks == old(chunks) && status == old(status)
        case NotContiguous => result == Err(SequenceGap) && chunks == old(chunks) && status == old(status)
        case Proceed =>
          && result == Ok(chunk) && Insert(old(chunks), sequence, chunk) == Ok(chunks)
          && status == if old(status) == Pending || old(status) == Acked then Running else old(status)
    {
      if sequence in chunks {
        var existing := chunks[sequence];
        if existing.data != chunk.data || existing.isFinal != chunk.isFinal {
          return Err(SequenceConflict);
        }
        return Ok(existing);
      }
      if sequence > 0 {
        if sequence - 1 !in chunks {
          return Err(SequenceGap);
        }
      }
      chunks := chunks[sequence := chunk];
      if status == Pending || status == Acked {
        status := Running;
      }
      result := Ok(chunk);
    }

    /** The inner replay loop over the rows of one query. */
    method ReplayRows(reader: Reader) returns (after: Reader)
      ensures after == EmitAll(reader)
    {
      var next, output, i, ended := reader.next, reader.output, 0, reader.ended;
      var rows := reader.rows;
      while i < |rows|
        invariant 0 <= i <= |rows|
        invariant EmitAll(reader) == EmitAll(Reader(next, output, rows[i..], ended))
      {
        var row := rows[i];
        ghost var before := Reader(next, output, rows[i..], ended);
        assert before.rows[1..] == rows[i + 1..];
        i := i + 1;
        if row.sequence != next {
          continue;
        }
        output := output + [row.chunk];
        next := next + 1;
        ended := row.chunk.isFinal;
        if ended {
          assert Emit(before) == Reader(next, output, [], ended);
          return Reader(next, output, [], ended);
        }
      }
      after := Reader(next, output, [], ended);
    }
  }

  /* ---------- interleavings ---------- */

  datatype Request = Request(sequence: nat, chunk: Chunk)

  /** Rows committed, appends that passed their checks, and readers. */
  datatype State = State(stored: Store, checked: map<nat, Request>, readers: map<nat, Reader>)

  const INIT := State(map[], map[], map[])

  datatype Step =
    | CheckStep(request: nat, sequence: nat, chunk: Chunk)
    | CommitStep(request: nat)
    | AbortStep(request: nat)
    | OpenReader(reader: nat)
    | QueryStep(reader: nat, rows: seq<ChunkRow>)
    | EmitStep(reader: nat)
    | CloseReader(reader: nat)

  ghost predicate Enabled(s: State, step: Step) {
    match step
    case CheckStep(q, _, _) => q !in s.checked
    case CommitStep(q) => q in s.checked
    case AbortStep(q) => q in s.checked
    case OpenReader(r) => r !in s.readers
    case QueryStep(r, rows) => r in s.readers && s.readers[r].rows == [] && !s.readers[r].ended
        && IsQueryResult(rows, s.stored, s.readers[r].next)
    case EmitStep(r) => r in s.readers && s.readers[r].rows != []
    case CloseReader(r) => r in s.readers
  }

  ghost function Apply(s: State, step: Step): State
    requires Enabled(s, step)
  {
    match step
    case CheckStep(q, sequence, chunk) =>
      if CheckAppend(s.stored, sequence, chunk) == Proceed then s.(checked := s.checked[q := Request(sequence, chunk)])
          else s
    case CommitStep(q) =>
      var s' := s.(checked := s.checked - {q});
      (match Insert(s.stored, s.checked[q].sequence, s.checked[q].chunk)
       case Ok(stored) => s'.(stored := stored)
       case Err(_) => s')
    case AbortStep(q) => s.(checked := s.checked - {q})
    case OpenReader(r) => s.(readers := s.readers[r := NEW_READER])
    case QueryStep(r, rows) => s.(readers := s.readers[r := s.readers[r].(rows := rows)])
    case EmitStep(r) => s.(readers := s.readers[r := Emit(s.readers[r])])
    case CloseReader(r) => s.(readers := s.readers - {r})
  }

  ghost predicate IsRun(states: seq<State>, steps: seq<Step>) {
    && |states| == |steps| + 1
    && states[0] == INIT
    && forall i :: 0 <= i < |steps| ==> Enabled(states[i], steps[i]) && states[i + 1] == Apply(states[i], steps[i])
  }

  /** No gap below a stored sequence. */
  ghost predicate Contiguous(stored: Store) {
    forall s {:trigger s in stored} :: s in stored ==> forall k :: 0 <= k < s ==> k in stored
  }

  predicate RowStored(stored: Store, row: ChunkRow) {
    row.sequence in stored && stored[row.sequence] == row.chunk
  }

  /** A reader's output is the stored prefix it has reached, with a final chunk only at its end;
      the rows it still holds are the stored rows that follow without a gap. */
  ghost predicate ReaderInv(stored: Store, r: Reader) {
    && |r.output| == r.next
    && (forall i {:trigger r.output[i]} {:trigger i in stored} :: 0 <= i < r.next ==>
          i in stored && stored[i] == r.output[i] && (r.output[i].isFinal <==> r.ended && i == r.next - 1))
    && (r.ended ==> r.next > 0 && r.rows == [])
    && (forall i {:trigger r.rows[i]} :: 0 <= i < |r.rows| ==>
        r.rows[i].sequence == r.next + i && RowStored(stored, r.rows[i]))
  }

  ghost predicate Inv(s: State) {
    && Contiguous(s.stored)
    && (forall q :: q in s.checked ==> s.checked[q].sequence > 0 ==> s.checked[q].sequence - 1 in s.stored)
    && (forall r :: r in s.readers ==> ReaderInv(s.stored, s.readers[r]))
  }

  /** In a contiguous store an ordered query returns consecutive rows. */
  lemma {:induction false} QueryIsConsecutive(rows: seq<ChunkRow>, stored: Store, next: nat, i: nat)
    requires Contiguous(stored) && IsQueryResult(rows, stored, next) && i < |rows|
    ensures rows[i].sequence == next + i
  {
    if i > 0 {
      QueryIsConsecutive(rows, stored, next, i - 1);
    }
    var s := next + i;
    assert rows[i].sequence >= s;
    if rows[i].sequence > s {
      assert s in stored;
      assert forall j :: 0 <= j < i ==> rows[j].sequence < s by {
        assert i > 0 ==> rows[i - 1].sequence == s - 1;
      }
      assert forall j :: i <= j < |rows| ==> rows[j].sequence > s;
    }
  }

  ghost predicate Extends(stored: Store, stored': Store) {
    forall s :: s in stored ==> s in stored' && stored'[s] == stored[s]
  }

  lemma ReaderInvMonotone(stored: Store, stored': Store, r: Reader)
    requires ReaderInv(stored, r) && Extends(stored, stored')
    ensures ReaderInv(stored', r)
  {
  }

  lemma CommitKeepsInv(s: State, q: nat)
    requires Inv(s) && q in s.checked
    ensures Inv(Apply(s, CommitStep(q)))
  {
    var s' := Apply(s, CommitStep(q));
    var sequence := s.checked[q].sequence;
    assert Extends(s.stored, s'.stored);
    assert Contiguous(s'.stored) by {
      assert sequence > 0 ==> forall k :: 0 <= k < sequence - 1 ==> k in s.stored;
    }
    forall r | r in s'.readers
      ensures ReaderInv(s'.stored, s'.readers[r])
    {
      ReaderInvMonotone(s.stored, s'.stored, s.readers[r]);
    }
  }

  lemma QueryKeepsReader(stored: Store, r: Reader, rows: seq<ChunkRow>)
    requires Contiguous(stored) && ReaderInv(stored, r) && !r.ended && IsQueryResult(rows, stored, r.next)
    ensures ReaderInv(stored, r.(rows := rows))
  {
    forall i | 0 <= i < |rows|
      ensures rows[i].sequence == r.next + i
    {
      QueryIsConsecutive(rows, stored, r.next, i);
    }
  }

  lemma StepKeepsInv(s: State, step: Step)
    requires Inv(s) && Enabled(s, step)
    ensures Inv(Apply(s, step))
  {
    match step {
      case QueryStep(r, rows) => QueryKeepsReader(s.stored, s.readers[r], rows);
      case EmitStep(r) => EmitKeepsReader(s.stored, s.readers[r]);
      case CommitStep(q) => CommitKeepsInv(s, q);
      case CheckStep(_, _, _) =>
      case AbortStep(_) =>
      case OpenReader(_) =>
      case CloseReader(_) =>
    }
  }

  lemma EmitKeepsReader(stored: Store, r: Reader)
    requires ReaderInv(stored, r) && r.rows != []
    ensures ReaderInv(stored, Emit(r))
    ensures Emit(r).next == r.next + 1
    ensures !Emit(r).ended ==> Emit(r).rows == r.rows[1..]
  {
    assert r.rows[0].sequence == r.next + 0;
  }

  lemma {:induction false} RunKeepsInv(states: seq<State>, steps: seq<Step>, i: nat)
    requires IsRun(states, steps) && i < |states|
    ensures Inv(states[i])
  {
    if i > 0 {
      RunKeepsInv(states, steps, i - 1);
      StepKeepsInv(states[i - 1], steps[i - 1]);
    }
  }

  /* ---------- main results ---------- */

  function Below(n: nat): (s: set<nat>)
    ensures |s| == n && forall k: nat :: k in s <==> k < n
  {
    if n == 0 then {} else Below(n - 1) + {n - 1}
  }

  lemma SubsetSize(a: set<nat>, b: set<nat>)
    requires a <= b
    ensures |a| <= |b|
    ensures |a| == |b| ==> a == b
  {
    assert b == a + (b - a);
  }

  lemma ContiguousKeys(stored: Store, n: nat)
    requires Contiguous(stored) && n == |stored.Keys|
    ensures forall s :: s in stored <==> 0 <= s < n
  {
    if s: nat :| s in stored && s >= n {
      assert forall k: nat :: k in Below(n + 1) ==> k in stored.Keys;
      SubsetSize(Below(n + 1), stored.Keys);
    } else {
      assert stored.Keys <= Below(n);
      SubsetSize(stored.Keys, Below(n));
    }
  }

  /** Over every interleaving the stored sequences are exactly 0 to n-1. */
  lemma StoredSequencesAreAPrefix(states: seq<State>, steps: seq<Step>, i: nat)
    requires IsRun(states, steps) && i < |states|
    ensures forall s :: s in states[i].stored <==> 0 <= s < |states[i].stored.Keys|
  {
    RunKeepsInv(states, steps, i);
    ContiguousKeys(states[i].stored, |states[i].stored.Keys|);
  }

  /** An accepted chunk never changes and never disappears. */
  lemma {:induction false} AcceptedChunkStays(states: seq<State>, steps: seq<Step>, i: nat, j: nat, s: nat)
    requires IsRun(states, steps) && i <= j < |states| && s in states[i].stored
    ensures s in states[j].stored && states[j].stored[s] == states[i].stored[s]
    decreases j
  {
    if i < j {
      AcceptedChunkStays(states, steps, i, j - 1, s);
    }
  }

  /** A retried append of an accepted chunk answers with it, and other data is a conflict. */
  lemma RetryIsIdempotent(states: seq<State>, steps: seq<Step>, i: nat, j: nat, s: nat, chunk: Chunk)
    requires IsRun(states, steps) && i <= j < |states| && s in states[i].stored
    ensures CheckAppend(states[j].stored, s, chunk) == if chunk == states[i].stored[s] then Existing(chunk)
         else Conflict
  {
    AcceptedChunkStays(states, steps, i, j, s);
  }

  /** Every reader's output is the stored prefix up to where it is, without gaps or repeats, no
      chunk before its last one is final, and it ends exactly when it has yielded a final one. */
  lemma ReaderOutput(states: seq<State>, steps: seq<Step>, i: nat, r: nat)
    requires IsRun(states, steps) && i < |states| && r in states[i].readers
    ensures var s, reader := states[i], states[i].readers[r];
      && |reader.output| == reader.next
      && (forall k :: 0 <= k < |reader.output| ==> k in s.stored && reader.output[k] == s.stored[k])
      && (forall k :: 0 <= k < |reader.output| - 1 ==> !reader.output[k].isFinal)
      && (reader.ended <==> reader.output != [] && reader.output[|reader.output| - 1].isFinal)
  {
    RunKeepsInv(states, steps, i);
  }

  lemma {:induction false} EmitAllReaches(stored: Store, r: Reader)
    requires ReaderInv(stored, r)
    ensures ReaderInv(stored, EmitAll(r)) && EmitAll(r).rows == []
    ensures EmitAll(r).ended || EmitAll(r).next == r.next + |r.rows|
    decreases |r.rows|
  {
    if r.rows != [] {
      EmitKeepsReader(stored, r);
      EmitAllReaches(stored, Emit(r));
    }
  }

  /** A poll misses nothing: once a reader has yielded the rows of a query it has either ended at
      the first final chunk or yielded every chunk that was stored when it asked. */
  lemma PollCatchesUp(states: seq<State>, steps: seq<Step>, i: nat, r: nat, rows: seq<ChunkRow>)
    requires IsRun(states, steps) && i < |steps| && steps[i] == QueryStep(r, rows)
    ensures var after := EmitAll(states[i + 1].readers[r]);
      && ReaderInv(states[i].stored, after)
      && (after.ended || after.next == |states[i].stored.Keys|)
  {
    RunKeepsInv(states, steps, i);
    QueryReachesEnd(states[i].stored, states[i].readers[r], rows);
  }

  lemma QueryReachesEnd(stored: Store, r: Reader, rows: seq<ChunkRow>)
    requires Contiguous(stored) && ReaderInv(stored, r) && !r.ended && IsQueryResult(rows, stored, r.next)
    ensures var after := EmitAll(r.(rows := rows));
      ReaderInv(stored, after) && (after.ended || after.next == |stored.Keys|)
  {
    QueryKeepsReader(stored, r, rows);
    EmitAllReaches(stored, r.(rows := rows));
    ContiguousKeys(stored, |stored.Keys|);
    QueryLength(stored, r, rows);
  }

  lemma QueryLength(stored: Store, r: Reader, rows: seq<ChunkRow>)
    requires forall s :: s in stored <==> 0 <= s < |stored.Keys|
    requires Contiguous(stored) && ReaderInv(stored, r) && IsQueryResult(rows, stored, r.next)
    ensures r.next + |rows| == |stored.Keys|
  {
    var n, end := |stored.Keys|, r.next + |rows|;
    assert r.next <= n by {
      assert r.next > 0 ==> r.next - 1 in stored;
    }
    if rows != [] {
      QueryIsConsecutive(rows, stored, r.next, |rows| - 1);
      assert rows[|rows| - 1].sequence in stored;
    }
    if end < n {
      assert end in stored;
      var j: nat :| j < |rows| && rows[j].sequence == end;
      QueryIsConsecutive(rows, stored, r.next, j);
    }
  }

  /* ---------- what gets through ---------- */

  /** With the sequences 0 to n-1 stored an append proceeds if and only if it is for n: a later one
      leaves a gap, and an earlier one is a repeat or a conflict. */
  lemma CheckByLength(stored: Store, sequence: nat, chunk: Chunk)
    requires Contiguous(stored)
    ensures var n, check := |stored.Keys|, CheckAppend(stored, sequence, chunk);
      && (check == Proceed <==> sequence == n)
      && (check == NotContiguous <==> sequence > n)
      && (check.Existing? <==> sequence < n && stored[sequence] == chunk)
      && (check == Conflict <==> sequence < n && stored[sequence] != chunk)
      && (check.Existing? ==> check.chunk == chunk)
  {
    ContiguousKeys(stored, |stored.Keys|);
  }

  /** Whether all the steps of a list can be taken, and where they lead. */
  ghost predicate CanTake(s: State, steps: seq<Step>, s': State)
    decreases |steps|
  {
    if steps == [] then s == s'
    else Enabled(s, steps[0]) && CanTake(Apply(s, steps[0]), steps[1..], s')
  }

  lemma OneMore(s: State, step: Step, rest: seq<Step>, s': State)
    requires Enabled(s, step) && CanTake(Apply(s, step), rest, s')
    ensures CanTake(s, [step] + rest, s')
  {
    assert ([step] + rest)[1..] == rest;
  }

  lemma TwoSteps(s: State, x: Step, y: Step)
    requires Enabled(s, x) && Enabled(Apply(s, x), y)
    ensures CanTake(s, [x, y], Apply(Apply(s, x), y))
  {
    var last := Apply(Apply(s, x), y);
    assert CanTake(last, [], last);
    OneMore(Apply(s, x), y, [], last);
    OneMore(s, x, [y], last);
    assert [y] + [] == [y] && [x] + [y] == [x, y];
  }

  /** The state in which a request for the next sequence has passed its check. */
  ghost function Checked(s: State, q: nat, chunk: Chunk): State {
    s.(checked := s.checked[q := Request(|s.stored.Keys|, chunk)])
  }

  lemma NextIsChecked(s: State, q: nat, chunk: Chunk)
    requires Contiguous(s.stored) && q !in s.checked
    ensures Enabled(s, CheckStep(q, |s.stored.Keys|, chunk))
    ensures Apply(s, CheckStep(q, |s.stored.Keys|, chunk)) == Checked(s, q, chunk)
  {
    CheckByLength(s.stored, |s.stored.Keys|, chunk);
  }

  lemma CheckedEnds(s: State, q: nat, chunk: Chunk)
    requires Contiguous(s.stored) && q !in s.checked
    ensures var checked := Checked(s, q, chunk);
      && Enabled(checked, CommitStep(q)) && Enabled(checked, AbortStep(q))
      && Apply(checked, CommitStep(q)) == s.(stored := s.stored[|s.stored.Keys| := chunk])
      && Apply(checked, AbortStep(q)) == s
  {
    ContiguousKeys(s.stored, |s.stored.Keys|);
    assert Checked(s, q, chunk).checked - {q} == s.checked;
  }

  /** From every reachable state the next chunk can be appended by a new request, and an aborted request
      leaves no trace. */
  lemma NextChunkPasses(s: State, q: nat, chunk: Chunk)
    requires Inv(s) && q !in s.checked
    ensures var n := |s.stored.Keys|;
      && CanTake(s, [CheckStep(q, n, chunk), CommitStep(q)], s.(stored := s.stored[n := chunk]))
      && CanTake(s, [CheckStep(q, n, chunk), AbortStep(q)], s)
  {
    NextIsChecked(s, q, chunk);
    CheckedEnds(s, q, chunk);
    TwoSteps(s, CheckStep(q, |s.stored.Keys|, chunk), CommitStep(q));
    TwoSteps(s, CheckStep(q, |s.stored.Keys|, chunk), AbortStep(q));
  }

  lemma SecondCommitLoses(s: State, q: nat, other: Chunk, stored: Store)
    requires q !in s.checked && |s.stored.Keys| in stored
    ensures var late := Checked(s, q, other).(stored := stored);
      Enabled(late, CommitStep(q)) && Apply(late, CommitStep(q)) == s.(stored := stored)
  {
    assert Checked(s, q, other).checked - {q} == s.checked;
  }

  /** Of two requests for the same next sequence that both passed their checks the first commit wins. */
  lemma FirstCommitWins(s: State, p: nat, q: nat, mine: Chunk, other: Chunk)
    requires Inv(s) && p !in s.checked && q !in s.checked && p != q
    ensures var n := |s.stored.Keys|;
      CanTake(s, [CheckStep(p, n, mine)] + ([CheckStep(q, n, other)] + [CommitStep(p), CommitStep(q)]),
              s.(stored := s.stored[n := mine]))
  {
    var n, stored := |s.stored.Keys|, s.stored[|s.stored.Keys| := mine];
    NextIsChecked(s, p, mine);
    var a := Checked(s, p, mine);
    NextIsChecked(a, q, other);
    var b, behind := Checked(a, q, other), Checked(s, q, other);
    assert b == Checked(behind, p, mine) by {
      assert s.checked[p := Request(n, mine)][q := Request(n, other)]
          == s.checked[q := Request(n, other)][p := Request(n, mine)];
    }
    CheckedEnds(behind, p, mine);
    SecondCommitLoses(s, q, other, stored);
    TwoSteps(b, CommitStep(p), CommitStep(q));
    OneMore(a, CheckStep(q, n, other), [CommitStep(p), CommitStep(q)], s.(stored := stored));
    OneMore(s, CheckStep(p, n, mine), [CheckStep(q, n, other)] + [CommitStep(p), CommitStep(q)], s.(stored := stored));
  }

  /** The rows with sequences from `next` to `n - 1`. */
  function RowsFrom(stored: Store, next: nat, n: nat): seq<ChunkRow>
    requires forall k :: next <= k < n ==> k in stored
    decreases n - next
  {
    if next >= n then [] else [ChunkRow(next, stored[next])] + RowsFrom(stored, next + 1, n)
  }

  lemma {:induction false} RowsFromAt(stored: Store, next: nat, n: nat)
    requires next <= n && forall k :: next <= k < n ==> k in stored
    ensures |RowsFrom(stored, next, n)| == n - next
    ensures forall i :: 0 <= i < n - next ==> RowsFrom(stored, next, n)[i] == ChunkRow(next + i, stored[next + i])
    decreases n - next
  {
    if next < n {
      RowsFromAt(stored, next + 1, n);
      var rest := RowsFrom(stored, next + 1, n);
      forall i | 0 < i < n - next
        ensures RowsFrom(stored, next, n)[i] == ChunkRow(next + i, stored[next + i])
      {
        assert RowsFrom(stored, next, n)[i] == rest[i - 1];
      }
    }
  }

  /** A query returns the stored rows from the awaited sequence on, in order, each once: that and
      nothing else. */
  lemma QueryIff(rows: seq<ChunkRow>, stored: Store, next: nat)
    requires Contiguous(stored) && next <= |stored.Keys|
    ensures forall k :: next <= k < |stored.Keys| ==> k in stored
    ensures IsQueryResult(rows, stored, next) <==> rows == RowsFrom(stored, next, |stored.Keys|)
  {
    var n := |stored.Keys|;
    ContiguousKeys(stored, n);
    RowsFromAt(stored, next, n);
    var all := RowsFrom(stored, next, n);
    assert IsQueryResult(all, stored, next) by {
      forall s | s in stored && s >= next
        ensures exists i :: 0 <= i < |all| && all[i].sequence == s
      {
        assert all[s - next].sequence == s;
      }
    }
    if IsQueryResult(rows, stored, next) {
      forall i | 0 <= i < |rows|
        ensures rows[i].sequence == next + i && RowStored(stored, rows[i])
      {
        QueryIsConsecutive(rows, stored, next, i);
      }
      RowsCount(rows, stored, next);
      assert rows == all;
    }
  }

  lemma RowsCount(rows: seq<ChunkRow>, stored: Store, next: nat)
    requires forall s :: s in stored <==> 0 <= s < |stored.Keys|
    requires next <= |stored.Keys| && IsQueryResult(rows, stored, next)
    requires forall i :: 0 <= i < |rows| ==> rows[i].sequence == next + i && RowStored(stored, rows[i])
    ensures |rows| == |stored.Keys| - next
  {
    assert |stored.Keys| > next ==> |stored.Keys| - 1 in stored;
    assert rows != [] ==> rows[|rows| - 1].sequence in stored;
  }

  lemma OpenedAsks(s: State, r: nat, rows: seq<ChunkRow>)
    requires r !in s.readers && IsQueryResult(rows, s.stored, 0)
    ensures Enabled(s, OpenReader(r)) && Enabled(Apply(s, OpenReader(r)), QueryStep(r, rows))
    ensures Apply(Apply(s, OpenReader(r)), QueryStep(r, rows))
         == s.(readers := s.readers[r := Reader(0, [], rows, false)])
  {
    assert s.readers[r := NEW_READER][r := Reader(0, [], rows, false)] == s.readers[r := Reader(0, [], rows, false)];
  }

  lemma OpenedCloses(s: State, r: nat, reader: Reader)
    requires r !in s.readers
    ensures var open := s.(readers := s.readers[r := reader]);
      Enabled(open, CloseReader(r)) && Apply(open, CloseReader(r)) == s
  {
    assert s.readers[r := reader] - {r} == s.readers;
  }

  /** A new reader can be opened and ask: it then holds all the stored rows in order and everything else
      is as it was; and wherever it is, closing it leaves no trace. */
  lemma ReaderPasses(s: State, r: nat, reader: Reader)
    requires Inv(s) && r !in s.readers
    ensures forall k :: 0 <= k < |s.stored.Keys| ==> k in s.stored
    ensures var rows := RowsFrom(s.stored, 0, |s.stored.Keys|);
      CanTake(s, [OpenReader(r), QueryStep(r, rows)], s.(readers := s.readers[r := Reader(0, [], rows, false)]))
    ensures CanTake(s.(readers := s.readers[r := reader]), [CloseReader(r)], s)
  {
    ContiguousKeys(s.stored, |s.stored.Keys|);
    var rows := RowsFrom(s.stored, 0, |s.stored.Keys|);
    QueryIff(rows, s.stored, 0);
    OpenedAsks(s, r, rows);
    TwoSteps(s, OpenReader(r), QueryStep(r, rows));
    OpenedCloses(s, r, reader);
    assert CanTake(s, [], s);
    OneMore(s.(readers := s.readers[r := reader]), CloseReader(r), [], s);
    assert [CloseReader(r)] + [] == [CloseReader(r)];
  }

  /** The rows that a reader holds, none but the last of them final, can be looked at one after the other
      by its own steps, which lead where the replay loop leads. */
  lemma {:induction false} ReaderYields(s: State, r: nat)
    requires r in s.readers
    requires forall i :: 0 <= i < |s.readers[r].rows| - 1 ==> !s.readers[r].rows[i].chunk.isFinal
    ensures CanTake(s, seq(|s.readers[r].rows|, i => EmitStep(r)), s.(readers := s.readers[r := EmitAll(s.readers[r])]))
    decreases |s.readers[r].rows|
  {
    var rows := s.readers[r].rows;
    if rows == [] {
      assert s.readers[r := s.readers[r]] == s.readers;
      assert seq(|rows|, i => EmitStep(r)) == [];
    } else {
      var next := Apply(s, EmitStep(r));
      assert next.readers[r].rows == rows[1..];
      ReaderYields(next, r);
      assert next.readers[r := EmitAll(next.readers[r])] == s.readers[r := EmitAll(s.readers[r])];
      OneMore(s, EmitStep(r), seq(|rows| - 1, i => EmitStep(r)),
              next.(readers := next.readers[r := EmitAll(next.readers[r])]));
      assert [EmitStep(r)] + seq(|rows| - 1, i => EmitStep(r)) == seq(|rows|, i => EmitStep(r));
    }
  }
}
