/** The job table (src/jobs.c): 64 slots scanned front to back, and a counter of
    user-facing ids that only grows.

    The table is given twice: as a value (`Table`, with one function per
    operation), which the job-control machine steps over, and as the mutable
    array of slots the program keeps (`JobTable`), whose scanning loops are
    proved to compute those functions. */
module Jobs {
  import opened Options

  const MAX_JOBS: nat := 64
  const JOB_CMD_LEN: nat := 256

  // How a terminated child ended; Exited(0) is the raw status word 0.
  datatype WaitStatus = Exited(code: nat) | Signaled(sig: nat)

  datatype JobState = Running | Done | Stopped

  datatype Job = Job(pid: int, id: int, state: JobState, status: WaitStatus, inUse: bool, command: string)

  const EMPTY_JOB := Job(0, 0, Running, Exited(0), false, "")

  // What the program prints about a job: "[id] <state>".
  datatype Report = Report(id: int, state: JobState)

  // ------------------------------------------------------------ the table as a value

  datatype Table = Table(slots: seq<Job>, nextId: int)

  /** Ids in use are distinct, positive and below the counter; so are group ids distinct. */
  predicate WellFormed(t: Table) {
    && |t.slots| == MAX_JOBS
    && (forall i :: 0 <= i < |t.slots| && t.slots[i].inUse ==>
          1 <= t.slots[i].id < t.nextId && t.slots[i].pid > 0)
    && 1 <= t.nextId
    && (forall i, j :: 0 <= i < |t.slots| && 0 <= j < |t.slots| && i != j && t.slots[i].inUse && t.slots[j].inUse ==>
          t.slots[i].id != t.slots[j].id && t.slots[i].pid != t.slots[j].pid)
  }

  // jobs_init: no slot in use, the first id is 1.
  function EmptyTable(): (t: Table)
    ensures WellFormed(t) && forall i :: 0 <= i < MAX_JOBS ==> t.slots[i] == EMPTY_JOB
  {
    Table(seq(MAX_JOBS, _ => EMPTY_JOB), 1)
  }

  // What a scan of the slots looks for.
  datatype Query = FreeSlot | ById(id: int) | ByPid(pid: int) | RunningPid(pid: int)

  predicate Matches(q: Query, job: Job) {
    match q
    case FreeSlot => !job.inUse
    case ById(id) => job.inUse && job.id == id
    case ByPid(pid) => job.inUse && job.pid == pid
    case RunningPid(pid) => job.inUse && job.pid == pid && job.state == Running
  }

  /** The first slot a query matches; the number of slots when none does. */
  function First(slots: seq<Job>, q: Query): (i: nat)
    ensures i <= |slots|
    ensures i < |slots| ==> Matches(q, slots[i])
    ensures forall j :: 0 <= j < i ==> !Matches(q, slots[j])
  {
    if slots == [] || Matches(q, slots[0]) then 0
    else
      var rest := First(slots[1..], q);
      assert forall j :: 1 <= j < |slots| ==> slots[j] == slots[1..][j - 1];
      rest + 1
  }

  function Clip(s: string): string {
    if |s| < JOB_CMD_LEN then s else s[..JOB_CMD_LEN - 1]
  }

  function Added(t: Table, pid: int, command: string, state: JobState): Table {
    var i := First(t.slots, FreeSlot);
    if i == |t.slots| then t
    else Table(t.slots[i := Job(pid, t.nextId, state, Exited(0), true, Clip(command))], t.nextId + 1)
  }

  function AddedId(t: Table): int {
    if First(t.slots, FreeSlot) == |t.slots| then -1 else t.nextId
  }

  function MarkedDone(t: Table, pid: int, status: WaitStatus): Table {
    var i := First(t.slots, RunningPid(pid));
    if i == |t.slots| then t
    else t.(slots := t.slots[i := t.slots[i].(state := Done, status := status)])
  }

  function WithState(t: Table, i: nat, state: JobState): Table
    requires i < |t.slots|
  {
    t.(slots := t.slots[i := t.slots[i].(state := state)])
  }

  function Removed(t: Table, q: Query): Table {
    var i := First(t.slots, q);
    if i == |t.slots| then t
    else t.(slots := t.slots[i := t.slots[i].(inUse := false)])
  }

  // The slots with every finished job freed.
  function DoneCleared(slots: seq<Job>): (r: seq<Job>)
    ensures |r| == |slots|
    ensures forall i :: 0 <= i < |slots| ==>
      r[i] == if slots[i].inUse && slots[i].state == Done then slots[i].(inUse := false) else slots[i]
  {
    seq(|slots|, i requires 0 <= i < |slots| =>
      if slots[i].inUse && slots[i].state == Done then slots[i].(inUse := false) else slots[i])
  }

  // The lines printed for the slots in use, in slot order.
  function Listed(slots: seq<Job>): seq<Report> {
    if slots == [] then []
    else
      var last := slots[|slots| - 1];
      Listed(slots[..|slots| - 1]) + (if last.inUse then [Report(last.id, last.state)] else [])
  }

  // The lines printed for the finished jobs, in slot order.
  function Notices(slots: seq<Job>): seq<Report> {
    if slots == [] then []
    else
      var last := slots[|slots| - 1];
      Notices(slots[..|slots| - 1]) + (if last.inUse && last.state == Done then [Report(last.id, Done)] else [])
  }

  // ------------------------------------------------------------ facts about the value

  predicate Tracked(t: Table, pid: int) {
    exists i :: 0 <= i < |t.slots| && t.slots[i].inUse && t.slots[i].pid == pid
  }

  /** jobs_add fails exactly when no slot is free, and then nothing changes; otherwise the
      new entry gets an id no entry has, one free slot is used, and all others stay. */
  lemma AddFillsOneFreeSlot(t: Table, pid: int, command: string, state: JobState)
    requires WellFormed(t)
    ensures |t.slots| == 64 && (AddedId(t) == -1 <==> forall i :: 0 <= i < 64 ==> t.slots[i].inUse)
    ensures AddedId(t) == -1 ==> Added(t, pid, command, state) == t
    ensures AddedId(t) != -1 ==>
      var u := Added(t, pid, command, state);
      && u.nextId == t.nextId + 1 && AddedId(t) == t.nextId
      && exists i :: 0 <= i < 64 && !t.slots[i].inUse && (forall j :: 0 <= j < i ==> t.slots[j].inUse) && u.slots == t.slots[i := Job(pid, AddedId(t), state, Exited(0), true, if |command| <= 255 then command else command[..255])]
    ensures pid > 0 && !Tracked(t, pid) ==> WellFormed(Added(t, pid, command, state))
  {
    var i := First(t.slots, FreeSlot);
    assert forall j :: 0 <= j < |t.slots| ==> (Matches(FreeSlot, t.slots[j]) <==> !t.slots[j].inUse);
  }

  lemma FirstFinds(slots: seq<Job>, q: Query, i: nat)
    requires i < |slots| && Matches(q, slots[i])
    requires forall j :: 0 <= j < |slots| && j != i ==> !Matches(q, slots[j])
    ensures First(slots, q) == i
  {
  }

  /** A report list names exactly the slots in use, with their states, each slot once. */
  lemma {:induction false} ListedExact(slots: seq<Job>)
    requires forall i, j :: 0 <= i < j < |slots| && slots[i].inUse && slots[j].inUse ==> slots[i].id != slots[j].id
    ensures forall r :: r in Listed(slots) <==>
      exists i :: 0 <= i < |slots| && slots[i].inUse && r == Report(slots[i].id, slots[i].state)
    ensures forall a, b :: 0 <= a < b < |Listed(slots)| ==> Listed(slots)[a].id != Listed(slots)[b].id
  {
    if slots != [] {
      var init := slots[..|slots| - 1];
      ListedExact(init);
      forall a | 0 <= a < |Listed(init)| ensures Listed(init)[a].id != slots[|slots| - 1].id || !slots[|slots| - 1].inUse {
        assert Listed(init)[a] in Listed(init);
      }
      forall r ensures r in Listed(slots) <==>
        exists i :: 0 <= i < |slots| && slots[i].inUse && r == Report(slots[i].id, slots[i].state)
      {
        if i :| 0 <= i < |slots| && slots[i].inUse && r == Report(slots[i].id, slots[i].state) {
          if i < |init| {
            assert init[i] == slots[i];
          }
        }
      }
    }
  }

  /** The completion notices name exactly the finished jobs, each once. */
  lemma {:induction false} NoticesExact(slots: seq<Job>)
    requires forall i, j :: 0 <= i < j < |slots| && slots[i].inUse && slots[j].inUse ==> slots[i].id != slots[j].id
    ensures forall r :: r in Notices(slots) <==>
      exists i :: 0 <= i < |slots| && slots[i].inUse && slots[i].state == Done && r == Report(slots[i].id, Done)
    ensures forall a, b :: 0 <= a < b < |Notices(slots)| ==> Notices(slots)[a].id != Notices(slots)[b].id
  {
    if slots != [] {
      var init := slots[..|slots| - 1];
      NoticesExact(init);
      forall a | 0 <= a < |Notices(init)| ensures Notices(init)[a].id != slots[|slots| - 1].id || !slots[|slots| - 1].inUse {
        assert Notices(init)[a] in Notices(init);
      }
      forall r ensures r in Notices(slots) <==>
        exists i :: 0 <= i < |slots| && slots[i].inUse && slots[i].state == Done && r == Report(slots[i].id, Done)
      {
        if i :| 0 <= i < |slots| && slots[i].inUse && slots[i].state == Done && r == Report(slots[i].id, Done) {
          if i < |init| {
            assert init[i] == slots[i];
          }
        }
      }
    }
  }

  // Where the a-th of the reports stands in the table.
  lemma {:induction false} ListedAt(slots: seq<Job>, a: nat) returns (i: nat)
    requires a < |Listed(slots)|
    ensures i < |slots| && slots[i].inUse && Listed(slots)[a] == Report(slots[i].id, slots[i].state) && |Listed(slots[..i])| == a
    decreases |slots|
  {
    var n := |slots| - 1;
    if a < |Listed(slots[..n])| {
      i := ListedAt(slots[..n], a);
      assert slots[..n][..i] == slots[..i];
    } else {
      i := n;
    }
  }

  lemma {:induction false} NoticesAt(slots: seq<Job>, a: nat) returns (i: nat)
    requires a < |Notices(slots)|
    ensures i < |slots| && slots[i].inUse && slots[i].state == Done && Notices(slots)[a] == Report(slots[i].id, Done)
    ensures |Notices(slots[..i])| == a
    decreases |slots|
  {
    var n := |slots| - 1;
    if a < |Notices(slots[..n])| {
      i := NoticesAt(slots[..n], a);
      assert slots[..n][..i] == slots[..i];
    } else {
      i := n;
    }
  }

  lemma {:induction false} ReportsGrow(slots: seq<Job>, i: nat, j: nat)
    requires i <= j <= |slots|
    ensures |Listed(slots[..i])| <= |Listed(slots[..j])| && |Notices(slots[..i])| <= |Notices(slots[..j])|
    decreases j - i
  {
    if i < j {
      ReportsGrow(slots, i, j - 1);
      assert slots[..j][..j - 1] == slots[..j - 1];
    }
  }

  /** Both lists are in the order of the slots. */
  lemma ReportsInOrder(slots: seq<Job>, a: nat, b: nat)
    ensures a < b < |Listed(slots)| ==> exists i, j :: 0 <= i < j < |slots| && slots[i].inUse && slots[j].inUse && Listed(slots)[a] == Report(slots[i].id, slots[i].state) && Listed(slots)[b] == Report(slots[j].id, slots[j].state)
    ensures a < b < |Notices(slots)| ==> exists i, j :: 0 <= i < j < |slots| && slots[i].inUse && slots[j].inUse && Notices(slots)[a] == Report(slots[i].id, Done) && Notices(slots)[b] == Report(slots[j].id, Done)
  {
    if a < b < |Listed(slots)| {
      var i := ListedAt(slots, a);
      var j := ListedAt(slots, b);
      if j <= i {
        ReportsGrow(slots, j, i);
        assert false;
      }
    }
    if a < b < |Notices(slots)| {
      var i := NoticesAt(slots, a);
      var j := NoticesAt(slots, b);
      if j <= i {
        ReportsGrow(slots, j, i);
        assert false;
      }
    }
  }

  // ------------------------------------------------------------ the table as mutable memory

  /** jobs_table_t: the slots are an array updated in place. A pointer to a slot is its index. */
  class JobTable {
    const jobs: array<Job>
    var nextId: int

    ghost predicate Valid()
      reads this
    {
      jobs.Length == MAX_JOBS
    }

    function View(): Table
      reads this, jobs
    {
      Table(jobs[..], nextId)
    }

    constructor ()
      ensures Valid() && fresh(jobs)
      ensures View() == EmptyTable()
    {
      jobs := new Job[MAX_JOBS](_ => EMPTY_JOB);
      nextId := 1;
      new;
      assert jobs[..] == EmptyTable().slots;
    }

    // The scan every operation shares: the index of the first match, if any.
    method Find(q: Query) returns (found: Option<nat>)
      requires Valid()
      ensures found == if First(jobs[..], q) == MAX_JOBS then None else Some(First(jobs[..], q))
    {
      for i := 0 to MAX_JOBS
        invariant forall j :: 0 <= j < i ==> !Matches(q, jobs[j])
      {
        if Matches(q, jobs[i]) {
          assert First(jobs[..], q) == i by {
            assert !(First(jobs[..], q) < i) && !(i < First(jobs[..], q)) by {
              assert jobs[..][i] == jobs[i];
            }
          }
          return Some(i);
        }
      }
      assert First(jobs[..], q) == MAX_JOBS;
      return None;
    }

    method Add(pid: int, command: string, state: JobState) returns (id: int)
      requires Valid()
      modifies this, jobs
      ensures Valid()
      ensures View() == old(Added(View(), pid, command, state))
      ensures id == old(AddedId(View()))
    {
      var slot := Find(FreeSlot);
      match slot {
        case None =>
          id := -1;
        case Some(i) =>
          id := nextId;
          nextId := nextId + 1;
          jobs[i] := Job(pid, id, state, Exited(0), true, Clip(command));
          assert jobs[..] == old(jobs[..])[i := jobs[i]];
      }
    }

    method MarkDone(pid: int, status: WaitStatus)
      requires Valid()
      modifies jobs
      ensures View() == old(MarkedDone(View(), pid, status))
    {
      var slot := Find(RunningPid(pid));
      if slot.Some? {
        var i := slot.value;
        jobs[i] := jobs[i].(state := Done, status := status);
        assert jobs[..] == old(jobs[..])[i := jobs[i]];
      }
    }

    method SetState(i: nat, state: JobState)
      requires Valid() && i < MAX_JOBS
      modifies jobs
      ensures View() == old(WithState(View(), i, state))
    {
      jobs[i] := jobs[i].(state := state);
      assert jobs[..] == old(jobs[..])[i := jobs[i]];
    }

    method Remove(q: Query)
      requires Valid()
      modifies jobs
      ensures View() == old(Removed(View(), q))
    {
      var slot := Find(q);
      if slot.Some? {
        var i := slot.value;
        jobs[i] := jobs[i].(inUse := false);
        assert jobs[..] == old(jobs[..])[i := jobs[i]];
      }
    }

    method Print() returns (out: seq<Report>)
      requires Valid()
      ensures out == Listed(jobs[..])
    {
      out := [];
      for i := 0 to MAX_JOBS
        invariant out == Listed(jobs[..i])
      {
        assert jobs[..i + 1][..i] == jobs[..i];
        if jobs[i].inUse {
          out := out + [Report(jobs[i].id, jobs[i].state)];
        }
      }
      assert jobs[..MAX_JOBS] == jobs[..];
    }

    method NotifyCompleted() returns (out: seq<Report>)
      requires Valid()
      modifies jobs
      ensures out == old(Notices(jobs[..]))
      ensures View() == old(View().(slots := DoneCleared(jobs[..])))
    {
      out := [];
      ghost var before := jobs[..];
      for i := 0 to MAX_JOBS
        invariant out == Notices(before[..i])
        invariant forall j :: 0 <= j < i ==> jobs[j] == DoneCleared(before)[j]
        invariant forall j :: i <= j < MAX_JOBS ==> jobs[j] == before[j]
      {
        assert before[..i + 1][..i] == before[..i];
        if jobs[i].inUse && jobs[i].state == Done {
          out := out + [Report(jobs[i].id, Done)];
          jobs[i] := jobs[i].(inUse := false);
        }
      }
      assert before[..MAX_JOBS] == before;
      assert jobs[..] == DoneCleared(before);
    }

    method ClearDone()
      requires Valid()
      modifies jobs
      ensures View() == old(View().(slots := DoneCleared(jobs[..])))
    {
      ghost var before := jobs[..];
      for i := 0 to MAX_JOBS
        invariant forall j :: 0 <= j < i ==> jobs[j] == DoneCleared(before)[j]
        invariant forall j :: i <= j < MAX_JOBS ==> jobs[j] == before[j]
      {
        if jobs[i].inUse && jobs[i].state == Done {
          jobs[i] := jobs[i].(inUse := false);
        }
      }
      assert jobs[..] == DoneCleared(before);
    }
  }
}
