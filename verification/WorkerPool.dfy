/** Compressing chunks in parallel: workers draw indices from one counter and put each result at its own index. */
module WorkerPool {
  import opened Bits
  import opened Canonical
  import opened Chunks

  /** What the code of chunk i is. */
  type Task = nat -> seq<byte>

  /** A worker is about to draw an index, coding the chunk it drew, or finished. */
  datatype Worker = Drawing | Coding(i: nat) | Finished

  /** writes counts the times each slot has been written. */
  datatype Pool = Pool(next: nat, workers: seq<Worker>, slots: seq<Option<seq<byte>>>, writes: seq<nat>)

  function Fresh(workers: nat, n: nat): Pool
  {
    Pool(0, seq(workers, _ => Drawing), seq(n, _ => None), seq(n, _ => 0))
  }

  /** One atomic step of worker w. A finished worker has none to take. */
  function Step(p: Pool, w: nat, task: Task): (q: Pool)
    requires |p.writes| == |p.slots|
    ensures |q.workers| == |p.workers| && |q.slots| == |p.slots| == |q.writes|
  {
    if w >= |p.workers| then p
    else
      match p.workers[w]
      case Drawing =>
        Pool(p.next + 1, p.workers[w := if p.next < |p.slots| then Coding(p.next) else Finished], p.slots, p.writes)
      case Coding(i) =>
        if i < |p.slots| then
          Pool(p.next, p.workers[w := Drawing], p.slots[i := Some(task(i))], p.writes[i := p.writes[i] + 1])
        else p
      case Finished => p
  }

  /** What a schedule, the order in which workers get to take steps, leads to. */
  function Run(p: Pool, schedule: seq<nat>, task: Task): (q: Pool)
    requires |p.writes| == |p.slots|
    ensures |q.workers| == |p.workers| && |q.slots| == |p.slots| == |q.writes|
    decreases |schedule|
  {
    if schedule == [] then p else Run(Step(p, schedule[0], task), schedule[1..], task)
  }

  // ---------- what every step keeps ----------

  /** A slot is either not drawn yet, being coded by just one worker, or written once with the chunk's code. */
  predicate SlotKept(p: Pool, i: nat, task: Task)
    requires i < |p.slots| == |p.writes|
  {
    match p.slots[i]
    case None => p.writes[i] == 0
    case Some(b) => p.writes[i] == 1 && i < p.next && b == task(i)
  }

  predicate WorkerKept(p: Pool, w: nat)
    requires w < |p.workers|
  {
    match p.workers[w]
    case Drawing => true
    case Coding(i) => i < p.next && i < |p.slots| && p.slots[i] == None
    case Finished => p.next >= |p.slots|
  }

  /** Two workers never code the same chunk. */
  predicate Apart(p: Pool, v: nat, w: nat)
    requires v < |p.workers| && w < |p.workers|
  {
    v != w && p.workers[v].Coding? && p.workers[w].Coding? ==> p.workers[v].i != p.workers[w].i
  }

  /** A drawn slot that is not written has a worker coding it. */
  predicate Claimed(p: Pool, i: nat)
    requires i < |p.slots|
  {
    i < p.next && p.slots[i] == None ==> Coding(i) in p.workers
  }

  ghost predicate Kept(p: Pool, task: Task)
  {
    && |p.writes| == |p.slots|
    && (forall i: nat {:trigger SlotKept(p, i, task)} :: i < |p.slots| ==> SlotKept(p, i, task))
    && (forall w: nat {:trigger WorkerKept(p, w)} :: w < |p.workers| ==> WorkerKept(p, w))
    && (forall v: nat, w: nat {:trigger Apart(p, v, w)} :: v < |p.workers| && w < |p.workers| ==> Apart(p, v, w))
    && (forall i: nat {:trigger Claimed(p, i)} :: i < |p.slots| ==> Claimed(p, i))
  }

  lemma FreshKept(workers: nat, n: nat, task: Task)
    ensures Kept(Fresh(workers, n), task)
  {
  }

  lemma StepKeeps(p: Pool, w: nat, task: Task)
    requires Kept(p, task)
    ensures Kept(Step(p, w, task), task)
  {
    if w < |p.workers| {
      match p.workers[w]
      case Drawing => DrawKeeps(p, w, task);
      case Coding(i) => CodeKeeps(p, w, i, task);
      case Finished =>
    }
  }

  lemma DrawKeeps(p: Pool, w: nat, task: Task)
    requires Kept(p, task) && w < |p.workers| && p.workers[w] == Drawing
    ensures Kept(Step(p, w, task), task)
  {
    var q := Step(p, w, task);
    forall i: nat | i < |q.slots|
      ensures SlotKept(q, i, task) && Claimed(q, i)
    {
      assert SlotKept(p, i, task) && Claimed(p, i);
      if i == p.next {
        assert q.workers[w] == Coding(i);
      } else if Coding(i) in p.workers {
        var v: nat :| v < |p.workers| && p.workers[v] == Coding(i);
        assert q.workers[v] == Coding(i);
      }
    }
    forall v: nat | v < |q.workers|
      ensures WorkerKept(q, v)
    {
      assert WorkerKept(p, v);
      if v == w && p.next < |p.slots| { assert SlotKept(p, p.next, task); }
    }
    forall u: nat, v: nat | u < |q.workers| && v < |q.workers|
      ensures Apart(q, u, v)
    {
      assert Apart(p, u, v) && WorkerKept(p, u) && WorkerKept(p, v);
    }
  }

  lemma CodeKeeps(p: Pool, w: nat, i: nat, task: Task)
    requires Kept(p, task) && w < |p.workers| && p.workers[w] == Coding(i)
    ensures Kept(Step(p, w, task), task)
  {
    var q := Step(p, w, task);
    assert WorkerKept(p, w) && SlotKept(p, i, task);
    forall j: nat | j < |q.slots|
      ensures SlotKept(q, j, task) && Claimed(q, j)
    {
      assert SlotKept(p, j, task) && Claimed(p, j);
      if j != i && Coding(j) in p.workers {
        var v: nat :| v < |p.workers| && p.workers[v] == Coding(j);
        assert q.workers[v] == Coding(j);
      }
    }
    forall v: nat | v < |q.workers|
      ensures WorkerKept(q, v)
    {
      assert WorkerKept(p, v) && Apart(p, v, w);
    }
    forall u: nat, v: nat | u < |q.workers| && v < |q.workers|
      ensures Apart(q, u, v)
    {
      assert Apart(p, u, v);
    }
  }

  lemma {:induction false} RunKeeps(p: Pool, schedule: seq<nat>, task: Task)
    requires Kept(p, task)
    ensures Kept(Run(p, schedule, task), task)
    decreases |schedule|
  {
    if schedule != [] {
      StepKeeps(p, schedule[0], task);
      RunKeeps(Step(p, schedule[0], task), schedule[1..], task);
    }
  }

  // ---------- the outcome ----------

  predicate AllFinished(p: Pool)
  {
    forall w :: 0 <= w < |p.workers| ==> p.workers[w] == Finished
  }

  /**
   * However the workers are scheduled, once all have finished every slot has been written just once, with its chunk's
   * code.
   */
  lemma ScheduleDoesNotMatter(workers: nat, n: nat, schedule: seq<nat>, task: Task)
    requires workers > 0 && AllFinished(Run(Fresh(workers, n), schedule, task))
    ensures var p := Run(Fresh(workers, n), schedule, task);
            forall i: nat {:trigger p.slots[i]} :: i < n ==> p.slots[i] == Some(task(i)) && p.writes[i] == 1
  {
    FreshKept(workers, n, task);
    RunKeeps(Fresh(workers, n), schedule, task);
    var p := Run(Fresh(workers, n), schedule, task);
    assert WorkerKept(p, 0);
    forall i: nat | i < n
      ensures p.slots[i] == Some(task(i)) && p.writes[i] == 1
    {
      assert SlotKept(p, i, task) && Claimed(p, i);
    }
  }

  /** The work of coding a chunk, which depends on the chunk alone. */
  function ChunkTask(enc: Encoder, data: seq<byte>, chunk: nat): Task
  {
    i => if Times(i, chunk) <= |data| then StoreChunk(enc, Piece(data, chunk, i)) else []
  }

  /** The chunks coded in parallel are those coded one after another. */
  lemma ParallelIsSequential(enc: Encoder, data: seq<byte>, chunk: nat, n: nat, workers: nat, schedule: seq<nat>,
                             i: nat)
    requires chunk > 0 && data != [] && workers > 0 && n == ChunkCount(|data|, chunk) && i < n
    requires AllFinished(Run(Fresh(workers, n), schedule, ChunkTask(enc, data, chunk)))
    ensures Times(n - 1, chunk) <= |data|
    ensures Run(Fresh(workers, n), schedule, ChunkTask(enc, data, chunk)).slots[i] ==
            Some(StoreChunks(enc, data, chunk, n)[i])
  {
    hide Run, StoreChunks, StoreChunk, AllFinished, ChunkCount, Times, Piece;
    ChunkCountBounds(|data|, chunk);
    ScheduleDoesNotMatter(workers, n, schedule, ChunkTask(enc, data, chunk));
    StoreChunksAt(enc, data, chunk, n, i);
  }

  // ---------- it finishes ----------

  function Weight(w: Worker): nat
  {
    match w case Drawing => 1 case Coding(_) => 2 case Finished => 0
  }

  function Load(workers: seq<Worker>): (l: nat)
  {
    if workers == [] then 0
    else Load(workers[1..]) + Weight(workers[0])
  }

  /** How many steps can still be taken, at most. */
  function Remaining(p: Pool): (r: nat)
  {
    Load(p.workers) + if p.next < |p.slots| then 3 * (|p.slots| - p.next) else 0
  }

  lemma {:induction false} LoadUpdate(workers: seq<Worker>, w: nat, x: Worker)
    requires w < |workers|
    ensures Load(workers[w := x]) == Load(workers) - Weight(workers[w]) + Weight(x)
  {
    if w == 0 {
      assert workers[w := x][1..] == workers[1..];
    } else {
      LoadUpdate(workers[1..], w - 1, x);
      assert workers[w := x][1..] == workers[1..][w - 1 := x];
    }
  }

  /** Every step of a worker that is not finished brings the end nearer. */
  lemma StepProgresses(p: Pool, w: nat, task: Task)
    requires Kept(p, task) && w < |p.workers| && p.workers[w] != Finished
    ensures Remaining(Step(p, w, task)) < Remaining(p)
  {
    assert WorkerKept(p, w);
    match p.workers[w]
    case Drawing => LoadUpdate(p.workers, w, if p.next < |p.slots| then Coding(p.next) else Finished);
    case Coding(i) => LoadUpdate(p.workers, w, Drawing);
  }

  /** From wherever the workers have got to, some schedule has them all finish. */
  lemma {:induction false} Finishes(p: Pool, task: Task) returns (schedule: seq<nat>)
    requires Kept(p, task)
    ensures AllFinished(Run(p, schedule, task))
    decreases Remaining(p)
  {
    hide Kept, Step, Remaining;
    KeptLengths(p, task);
    if AllFinished(p) {
      schedule := [];
    } else {
      var w: nat :| w < |p.workers| && p.workers[w] != Finished;
      StepKeeps(p, w, task);
      StepProgresses(p, w, task);
      var rest := Finishes(Step(p, w, task), task);
      schedule := [w] + rest;
      assert schedule[1..] == rest;
    }
  }

  lemma KeptLengths(p: Pool, task: Task)
    requires Kept(p, task)
    ensures |p.writes| == |p.slots|
  {
  }
}
