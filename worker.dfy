/** The WAL redo thread (src/walredo.rs, `wal_applicator_main` and
    `handle_apply_request`): publishing each request's outcome into its cache
    entry, and the policy that recycles the child process.

    What the child returns for a request is an input here: the outcome of
    `apply_wal_records` for that request, a page image or an I/O error. */
module WalRedoWorker {
  import opened Wrappers
  import opened ByteOrder
  import opened WalRedoMessages

  /** `for _i in 1..100` runs its body 99 times. */
  const MAX_REQUESTS_PER_PROCESS: nat := 99

  /** A page image as read back from the child: exactly one page. */
  type Page = s: seq<byte> | |s| == PAGE_SIZE witness seq(PAGE_SIZE, _ => 0)

  /** Why `apply_wal_records` fails: a write or the read ran over its
      deadline, or the pipe itself failed. */
  datatype ApplyError = Timeout | StreamFailure

  /** The result slot of a cache entry, as a value. */
  datatype EntryState = EntryState(applyPending: bool, pageImage: Option<Page>, wakeups: nat)

  /** A page-cache entry: its key, and the result slot behind its lock. */
  class CacheEntry {
    const tag: BufferTag
    const lsn: u64
    var applyPending: bool
    var pageImage: Option<Page>
    /** How many times `walredo_condvar.notify_all` has been called. */
    ghost var wakeups: nat

    constructor (tag: BufferTag, lsn: u64, pageImage: Option<Page>)
      ensures this.tag == tag && this.lsn == lsn
      ensures applyPending && this.pageImage == pageImage && wakeups == 0
    {
      this.tag := tag;
      this.lsn := lsn;
      this.applyPending := true;
      this.pageImage := pageImage;
      this.wakeups := 0;
    }
  }

  /** The page cache's process-wide counter of reconstructed page images. */
  class PageCacheStats {
    var numPageImages: nat

    constructor ()
      ensures numPageImages == 0
    {
      numPageImages := 0;
    }
  }

  /** `handle_apply_request`: clear the pending flag, store the image and
      count it on success, leave the image alone on failure, wake the waiters
      either way, and hand the outcome back to the loop. */
  method HandleApplyRequest(entry: CacheEntry, stats: PageCacheStats, applyResult: Result<Page, ApplyError>)
    returns (result: Result<(), ApplyError>)
    modifies entry, stats
    ensures !entry.applyPending
    ensures entry.wakeups == old(entry.wakeups) + 1
    ensures applyResult.Ok? ==> result == Ok(())
    ensures applyResult.Ok? ==> entry.pageImage == Some(applyResult.value)
    ensures applyResult.Ok? ==> stats.numPageImages == old(stats.numPageImages) + 1
    ensures applyResult.Err? ==> result == Err(applyResult.error)
    ensures applyResult.Err? ==> entry.pageImage == old(entry.pageImage)
    ensures applyResult.Err? ==> stats.numPageImages == old(stats.numPageImages)
    ensures EntryState(entry.applyPending, entry.pageImage, entry.wakeups) == Publish(EntryState(old(entry.applyPending), old(entry.pageImage), old(entry.wakeups)), Arrival(entry, applyResult), entry)
  {
    entry.applyPending := false;
    if applyResult.Err? {
      result := Err(applyResult.error);
    } else {
      entry.pageImage := Some(applyResult.value);
      stats.numPageImages := stats.numPageImages + 1;
      result := Ok(());
    }
    entry.wakeups := entry.wakeups + 1;
  }

  // ---------------------------------------------------------------------
  // What a run of requests does to the entries and the counter

  /** One request taken off the channel, with what the child will make of it. */
  datatype Arrival = Arrival(entry: CacheEntry, applyResult: Result<Page, ApplyError>)

  /** Every entry's state is its state in base with the requests q[0..n]
      handled in order. */
  ghost predicate Reflects(entries: set<CacheEntry>, base: map<CacheEntry, EntryState>, q: seq<Arrival>, n: nat)
    requires n <= |q|
    reads entries
  {
    forall e :: e in entries ==> e in base && EntryState(e.applyPending, e.pageImage, e.wakeups) == StateBetween(base[e], q, 0, n, e)
  }

  /** The entries the requests q are for all lie in `entries`. */
  predicate Covers(entries: set<CacheEntry>, q: seq<Arrival>)
  {
    forall k :: 0 <= k < |q| ==> q[k].entry in entries
  }

  /** What handling request a does to the state s of entry e. */
  function Publish(s: EntryState, a: Arrival, e: CacheEntry): EntryState
  {
    if a.entry != e then s
    else
      EntryState(false,
                 if a.applyResult.Ok? then Some(a.applyResult.value) else s.pageImage,
                 s.wakeups + 1)
  }

  /** The state of entry e, starting from s, after the requests q[i..j]. */
  function StateBetween(s: EntryState, q: seq<Arrival>, i: nat, j: nat, e: CacheEntry): EntryState
    requires i <= j <= |q|
    decreases j
  {
    if j == i then s else Publish(StateBetween(s, q, i, j - 1, e), q[j - 1], e)
  }

  /** How many of the requests q[i..j] are for entry e. */
  function Occurrences(q: seq<Arrival>, i: nat, j: nat, e: CacheEntry): nat
    requires i <= j <= |q|
    decreases j
  {
    if j == i then 0 else Occurrences(q, i, j - 1, e) + (if q[j - 1].entry == e then 1 else 0)
  }

  /** How many of the requests q[i..j] succeed. */
  function CountOk(q: seq<Arrival>, i: nat, j: nat): nat
    requires i <= j <= |q|
    decreases j
  {
    if j == i then 0 else CountOk(q, i, j - 1) + (if q[j - 1].applyResult.Ok? then 1 else 0)
  }

  /** Handling q[i..j] and then q[j..k] is handling q[i..k]. */
  lemma {:induction false} StateBetweenSplit(s: EntryState, q: seq<Arrival>, i: nat, j: nat, k: nat, e: CacheEntry)
    requires i <= j <= k <= |q|
    ensures StateBetween(s, q, i, k, e) == StateBetween(StateBetween(s, q, i, j, e), q, j, k, e)
    decreases k
  {
    if k > j {
      StateBetweenSplit(s, q, i, j, k - 1, e);
    }
  }

  lemma {:induction false} CountOkSplit(q: seq<Arrival>, i: nat, j: nat, k: nat)
    requires i <= j <= k <= |q|
    ensures CountOk(q, i, k) == CountOk(q, i, j) + CountOk(q, j, k)
    decreases k
  {
    if k > j {
      CountOkSplit(q, i, j, k - 1);
    }
  }

  /** Requests for other entries leave an entry alone. */
  lemma {:induction false} NotMentioned(s: EntryState, q: seq<Arrival>, i: nat, j: nat, e: CacheEntry)
    requires i <= j <= |q|
    requires forall k :: i <= k < j ==> q[k].entry != e
    ensures StateBetween(s, q, i, j, e) == s
    ensures Occurrences(q, i, j, e) == 0
    decreases j
  {
    if j > i {
      NotMentioned(s, q, i, j - 1, e);
    }
  }

  /** Every request for an entry wakes its waiters once, and an entry stays
      pending exactly when it was pending and no request for it was handled. */
  lemma {:induction false} StateBetweenCounts(s: EntryState, q: seq<Arrival>, i: nat, j: nat, e: CacheEntry)
    requires i <= j <= |q|
    ensures StateBetween(s, q, i, j, e).wakeups == s.wakeups + Occurrences(q, i, j, e)
    ensures StateBetween(s, q, i, j, e).applyPending == (s.applyPending && Occurrences(q, i, j, e) == 0)
    decreases j
  {
    if j > i {
      StateBetweenCounts(s, q, i, j - 1, e);
    }
  }

  /** An entry holds the image of the last successful request for it. */
  lemma {:induction false} ImageAfterLastSuccess(s: EntryState, q: seq<Arrival>, i: nat, j: nat, e: CacheEntry, k: nat)
    requires i <= k < j <= |q| && q[k].entry == e && q[k].applyResult.Ok?
    requires forall m :: k < m < j && q[m].entry == e ==> q[m].applyResult.Err?
    ensures StateBetween(s, q, i, j, e).pageImage == Some(q[k].applyResult.value)
    decreases j
  {
    if k < j - 1 {
      ImageAfterLastSuccess(s, q, i, j - 1, e, k);
    }
  }

  /** Failed requests leave an entry's image as it was. */
  lemma {:induction false} ImageAfterNoSuccess(s: EntryState, q: seq<Arrival>, i: nat, j: nat, e: CacheEntry)
    requires i <= j <= |q|
    requires forall m :: i <= m < j && q[m].entry == e ==> q[m].applyResult.Err?
    ensures StateBetween(s, q, i, j, e).pageImage == s.pageImage
    decreases j
  {
    if j > i {
      ImageAfterNoSuccess(s, q, i, j - 1, e);
    }
  }

  // ---------------------------------------------------------------------
  // One child process: the inner `for _i in 1..100` loop

  datatype SessionEnd =
    | Recycled          // served MAX_REQUESTS_PER_PROCESS requests
    | FailedRequest     // the last request failed; the process is abandoned
    | AwaitingRequest   // blocked in `recv()`: no further request has arrived

  /** How many of the requests q[i..] a process that has already served
      `used` requests goes on to serve. */
  function SessionFrom(q: seq<Arrival>, i: nat, used: nat): (n: nat)
    requires i <= |q| && used <= MAX_REQUESTS_PER_PROCESS
    ensures i + n <= |q| && used + n <= MAX_REQUESTS_PER_PROCESS
    decreases |q| - i
  {
    if used == MAX_REQUESTS_PER_PROCESS || i == |q| then 0
    else if q[i].applyResult.Err? then 1
    else 1 + SessionFrom(q, i + 1, used + 1)
  }

  /** Whether that process ends up waiting for a request that never comes. */
  predicate EndsWaiting(q: seq<Arrival>, i: nat, used: nat)
    requires i <= |q| && used <= MAX_REQUESTS_PER_PROCESS
    decreases |q| - i
  {
    if used == MAX_REQUESTS_PER_PROCESS then false
    else if i == |q| then true
    else if q[i].applyResult.Err? then false
    else EndsWaiting(q, i + 1, used + 1)
  }

  /** What decides the length of a session: every request but the last
      succeeds, and the process stops after 99 requests, after a failure,
      or when the requests run out. */
  lemma {:induction false} SessionShape(q: seq<Arrival>, i: nat, used: nat)
    requires i <= |q| && used <= MAX_REQUESTS_PER_PROCESS
    ensures var n := SessionFrom(q, i, used);
      && (forall k :: i <= k < i + n - 1 ==> q[k].applyResult.Ok?)
      && (EndsWaiting(q, i, used) <==>
            i + n == |q| && used + n < MAX_REQUESTS_PER_PROCESS && (n == 0 || q[i + n - 1].applyResult.Ok?))
      && (!EndsWaiting(q, i, used) ==>
            used + n == MAX_REQUESTS_PER_PROCESS || (n > 0 && q[i + n - 1].applyResult.Err?))
      && (used < MAX_REQUESTS_PER_PROCESS && i < |q| ==> n > 0)
    decreases |q| - i
  {
    if used < MAX_REQUESTS_PER_PROCESS && i < |q| && q[i].applyResult.Ok? {
      SessionShape(q, i + 1, used + 1);
    }
  }

  /** One iteration of the reuse loop: a success moves on to the next
      request, a failure ends the session after this request. */
  lemma SessionStep(q: seq<Arrival>, j: nat, used: nat)
    requires j < |q| && used < MAX_REQUESTS_PER_PROCESS
    ensures q[j].applyResult.Ok? ==>
      SessionFrom(q, j, used) == 1 + SessionFrom(q, j + 1, used + 1) &&
      EndsWaiting(q, j, used) == EndsWaiting(q, j + 1, used + 1)
    ensures q[j].applyResult.Err? ==> SessionFrom(q, j, used) == 1 && !EndsWaiting(q, j, used)
  {
  }

  /** One turn of the reuse loop: take request q[j] and handle it. */
  method ServeRequest(stats: PageCacheStats, entries: set<CacheEntry>, queue: seq<Arrival>, j: nat)
    returns (result: Result<(), ApplyError>)
    requires j < |queue| && Covers(entries, queue)
    modifies stats, entries
    ensures result.Ok? <==> queue[j].applyResult.Ok?
    ensures stats.numPageImages == old(stats.numPageImages) + (if queue[j].applyResult.Ok? then 1 else 0)
    ensures forall e :: e in entries ==>
      EntryState(e.applyPending, e.pageImage, e.wakeups) ==
      Publish(EntryState(old(e.applyPending), old(e.pageImage), old(e.wakeups)), queue[j], e)
  {
    var request := queue[j];
    result := HandleApplyRequest(request.entry, stats, request.applyResult);
  }

  /** The first `served` requests of the session from q[start] have been
      served: they all succeeded, and the rest of the session is still to come. */
  ghost predicate SessionSoFar(q: seq<Arrival>, start: nat, served: nat)
  {
    && start + served <= |q| && served <= MAX_REQUESTS_PER_PROCESS
    && served + SessionFrom(q, start + served, served) == SessionFrom(q, start, 0)
    && EndsWaiting(q, start + served, served) == EndsWaiting(q, start, 0)
    && (served > 0 ==> q[start + served - 1].applyResult.Ok?)
  }

  /** One turn of the reuse loop inside a session: serve its next request. */
  method ServeNext(stats: PageCacheStats, entries: set<CacheEntry>, queue: seq<Arrival>, start: nat, served: nat,
                   ghost count0: int, ghost base: map<CacheEntry, EntryState>)
    returns (result: Result<(), ApplyError>, served': nat)
    requires SessionSoFar(queue, start, served) && served < MAX_REQUESTS_PER_PROCESS && start + served < |queue|
    requires Covers(entries, queue) && Reflects(entries, base, queue, start + served)
    requires stats.numPageImages == count0 + CountOk(queue, start, start + served)
    modifies stats, entries
    ensures served' == served + 1
    ensures result.Ok? ==> SessionSoFar(queue, start, served')
    ensures result.Err? ==> SessionFrom(queue, start, 0) == served' && !EndsWaiting(queue, start, 0)
    ensures result.Err? <==> queue[start + served].applyResult.Err?
    ensures stats.numPageImages == count0 + CountOk(queue, start, start + served')
    ensures Reflects(entries, base, queue, start + served')
  {
    SessionStep(queue, start + served, served);
    result := ServeRequest(stats, entries, queue, start + served);
    served' := served + 1;
  }

  /** The body of the reuse loop for one launched process: serve the requests
      from q[start] on until 99 are served, one fails, or none is left. */
  method ServeProcessInstance(stats: PageCacheStats, entries: set<CacheEntry>, queue: seq<Arrival>, start: nat,
                              ghost base: map<CacheEntry, EntryState>)
    returns (served: nat, end: SessionEnd)
    requires start <= |queue| && Covers(entries, queue)
    requires Reflects(entries, base, queue, start)
    modifies stats, entries
    ensures served == SessionFrom(queue, start, 0)
    ensures end == AwaitingRequest <==> EndsWaiting(queue, start, 0)
    ensures end == FailedRequest <==> served > 0 && queue[start + served - 1].applyResult.Err?
    ensures stats.numPageImages == old(stats.numPageImages) + CountOk(queue, start, start + served)
    ensures Reflects(entries, base, queue, start + served)
  {
    served := 0;
    end := Recycled;
    for i := 1 to 100
      invariant served == i - 1 && SessionSoFar(queue, start, served)
      invariant stats.numPageImages == old(stats.numPageImages) + CountOk(queue, start, start + served)
      invariant Reflects(entries, base, queue, start + served)
    {
      if start + served == |queue| {
        end := AwaitingRequest;
        return;
      }
      var result;
      result, served := ServeNext(stats, entries, queue, start, served, old(stats.numPageImages), base);
      if result.Err? {
        end := FailedRequest;
        break;
      }
    }
  }

  // ---------------------------------------------------------------------
  // The outer loop: launch, serve, tear down, launch again

  /** Whether the instance retires after serving a as its (`used`+1)-th
      request: a failure kills it, and so does reaching 99 requests. */
  predicate Retires(a: Arrival, used: nat)
  {
    a.applyResult.Err? || used + 1 == MAX_REQUESTS_PER_PROCESS
  }

  /** The instance that serves the request after a. */
  function NextInstance(a: Arrival, inst: nat, used: nat): nat
  {
    if Retires(a, used) then inst + 1 else inst
  }

  /** How many requests that instance has served before it. */
  function NextUsed(a: Arrival, used: nat): nat
  {
    if Retires(a, used) then 0 else used + 1
  }

  /** The process instance (numbered from `inst` on) that serves each of the
      requests q[i..], when the current one has already served `used`. */
  function Assign(q: seq<Arrival>, i: nat, inst: nat, used: nat): (r: seq<nat>)
    requires i <= |q| && used < MAX_REQUESTS_PER_PROCESS
    ensures |r| == |q| - i
    decreases |q| - i
  {
    if i == |q| then []
    else [inst] + Assign(q, i + 1, NextInstance(q[i], inst, used), NextUsed(q[i], used))
  }

  /** How many requests the instance serving each of q[i..] had served
      before it. */
  function Slot(q: seq<Arrival>, i: nat, used: nat): (r: seq<nat>)
    requires i <= |q| && used < MAX_REQUESTS_PER_PROCESS
    ensures |r| == |q| - i
    ensures forall k :: 0 <= k < |r| ==> r[k] < MAX_REQUESTS_PER_PROCESS
    decreases |q| - i
  {
    if i == |q| then []
    else [used] + Slot(q, i + 1, NextUsed(q[i], used))
  }

  /** The process instance that serves each request, the first being 0. */
  function InstanceOf(q: seq<Arrival>): seq<nat>
  {
    Assign(q, 0, 0, 0)
  }

  /** The position of each request within its instance's session. */
  function SlotOf(q: seq<Arrival>): seq<nat>
  {
    Slot(q, 0, 0)
  }

  /** A session serves its requests on one instance; the next instance takes over. */
  lemma {:induction false} AssignSplit(q: seq<Arrival>, i: nat, inst: nat, used: nat)
    requires i <= |q| && used < MAX_REQUESTS_PER_PROCESS
    ensures EndsWaiting(q, i, used) ==>
      Assign(q, i, inst, used) == Repeat(inst, SessionFrom(q, i, used))
    ensures !EndsWaiting(q, i, used) ==>
      Assign(q, i, inst, used) ==
        Repeat(inst, SessionFrom(q, i, used)) + Assign(q, i + SessionFrom(q, i, used), inst + 1, 0)
    decreases |q| - i
  {
    if i < |q| {
      if Retires(q[i], used) {
        RetireStep(q, i, inst, used);
        assert Repeat(inst, 1) == [inst];
      } else {
        ContinueStep(q, i, inst, used);
        AssignSplit(q, i + 1, inst, used + 1);
        RepeatCons(inst, SessionFrom(q, i + 1, used + 1));
      }
    }
  }

  /** A request that retires its instance ends the session, and the next
      request starts the next instance. */
  lemma RetireStep(q: seq<Arrival>, i: nat, inst: nat, used: nat)
    requires i < |q| && used < MAX_REQUESTS_PER_PROCESS && Retires(q[i], used)
    ensures SessionFrom(q, i, used) == 1 && !EndsWaiting(q, i, used)
    ensures Assign(q, i, inst, used) == [inst] + Assign(q, i + 1, inst + 1, 0)
  {
    if q[i].applyResult.Ok? {
      assert SessionFrom(q, i + 1, used + 1) == 0 && !EndsWaiting(q, i + 1, used + 1);
    }
  }

  /** A request that does not retire its instance leaves the session open. */
  lemma ContinueStep(q: seq<Arrival>, i: nat, inst: nat, used: nat)
    requires i < |q| && used < MAX_REQUESTS_PER_PROCESS && !Retires(q[i], used)
    ensures SessionFrom(q, i, used) == 1 + SessionFrom(q, i + 1, used + 1)
    ensures EndsWaiting(q, i, used) == EndsWaiting(q, i + 1, used + 1)
    ensures Assign(q, i, inst, used) == [inst] + Assign(q, i + 1, inst, used + 1)
  {
  }

  /** From one request to the next: the instance changes exactly when the
      earlier request retired it, and then the later one is the new
      instance's first; otherwise its position moves up by one. */
  lemma {:induction false} AssignStep(q: seq<Arrival>, i: nat, inst: nat, used: nat, k: nat)
    requires i <= |q| && used < MAX_REQUESTS_PER_PROCESS && k + 1 < |q| - i
    ensures var r, sl := Assign(q, i, inst, used), Slot(q, i, used);
      if Retires(q[i + k], sl[k])
      then r[k + 1] == r[k] + 1 && sl[k + 1] == 0
      else r[k + 1] == r[k] && sl[k + 1] == sl[k] + 1
    decreases |q| - i
  {
    var inst', used' := NextInstance(q[i], inst, used), NextUsed(q[i], used);
    var r', sl' := Assign(q, i + 1, inst', used'), Slot(q, i + 1, used');
    assert Assign(q, i, inst, used) == [inst] + r';
    assert Slot(q, i, used) == [used] + sl';
    if k > 0 {
      AssignStep(q, i + 1, inst', used', k - 1);
    }
  }

  /** The first request goes to instance 0, as its first request. */
  lemma InstanceStart(q: seq<Arrival>)
    requires |q| > 0
    ensures InstanceOf(q)[0] == 0 && SlotOf(q)[0] == 0
  {
  }

  /** How the whole queue is spread over instances, one request to the next. */
  lemma InstanceTransition(q: seq<Arrival>, k: nat)
    requires k + 1 < |q|
    ensures var ins, sl := InstanceOf(q), SlotOf(q);
      if Retires(q[k], sl[k])
      then ins[k + 1] == ins[k] + 1 && sl[k + 1] == 0
      else ins[k + 1] == ins[k] && sl[k + 1] == sl[k] + 1
  {
    AssignStep(q, 0, 0, 0, k);
  }

  /** Instance numbers never go down, and over a run of one instance the
      position moves up by one per request. */
  lemma {:induction false} InstanceRun(q: seq<Arrival>, k: nat, d: nat)
    requires k + d < |q|
    ensures var ins, sl := InstanceOf(q), SlotOf(q);
      ins[k] <= ins[k + d] && (ins[k + d] == ins[k] ==> sl[k + d] == sl[k] + d)
  {
    if d > 0 {
      InstanceRun(q, k, d - 1);
      InstanceTransition(q, k + d - 1);
    }
  }

  /** No process instance serves more than 99 requests. */
  lemma AtMostPerInstance(q: seq<Arrival>, k: nat)
    requires k + MAX_REQUESTS_PER_PROCESS < |q|
    ensures InstanceOf(q)[k] < InstanceOf(q)[k + MAX_REQUESTS_PER_PROCESS]
  {
    InstanceRun(q, k, MAX_REQUESTS_PER_PROCESS);
  }

  /** The instance numbers of the requests before c are instances, and the
      rest are numbered from instance inst on unless the queue is exhausted. */
  predicate Numbered(queue: seq<Arrival>, c: nat, inst: nat, waiting: bool, instances: seq<nat>)
  {
    c <= |queue| &&
    (waiting ==> c == |queue| && instances == InstanceOf(queue)) &&
    (!waiting ==> instances + Assign(queue, c, inst, 0) == InstanceOf(queue))
  }

  /** One session, seen from the instance numbering: the next `served`
      requests go to instance `inst`, and unless the process was left waiting
      the following ones go to the instances after it. */
  lemma SessionProgress(queue: seq<Arrival>, c: nat, inst: nat, served: nat, instances: seq<nat>)
    requires Numbered(queue, c, inst, false, instances) && served == SessionFrom(queue, c, 0)
    ensures Numbered(queue, c + served, inst + 1, EndsWaiting(queue, c, 0), instances + Repeat(inst, served))
    ensures !EndsWaiting(queue, c, 0) ==> served > 0
  {
    SessionShape(queue, c, 0);
    AssignSplit(queue, c, inst, 0);
  }

  /** One turn of the `wal_applicator_main` loop: launch a process, let it
      serve its session, and drop it. */
  method RunInstance(stats: PageCacheStats, entries: set<CacheEntry>, queue: seq<Arrival>,
                     consumed: nat, inst: nat, instances: seq<nat>,
                     ghost count0: int, ghost base: map<CacheEntry, EntryState>)
    returns (consumed': nat, waiting: bool, instances': seq<nat>)
    requires Covers(entries, queue) && Numbered(queue, consumed, inst, false, instances)
    requires stats.numPageImages == count0 + CountOk(queue, 0, consumed)
    requires Reflects(entries, base, queue, consumed)
    modifies stats, entries
    ensures Numbered(queue, consumed', inst + 1, waiting, instances')
    ensures !waiting ==> consumed' > consumed
    ensures stats.numPageImages == count0 + CountOk(queue, 0, consumed')
    ensures Reflects(entries, base, queue, consumed')
  {
    var served, end := ServeProcessInstance(stats, entries, queue, consumed, base);
    CountOkSplit(queue, 0, consumed, consumed + served);
    SessionProgress(queue, consumed, inst, served, instances);
    instances' := instances + Repeat(inst, served);
    consumed' := consumed + served;
    waiting := end == AwaitingRequest;
  }

  /** `wal_applicator_main` over a finite queue: launch a process, let it
      serve its session, drop it and launch the next, until a process is left
      waiting for a request. Returns the instance that served each request. */
  method WalApplicatorMain(stats: PageCacheStats, entries: set<CacheEntry>, queue: seq<Arrival>) returns (instances: seq<nat>)
    requires Covers(entries, queue)
    modifies stats, entries
    ensures instances == InstanceOf(queue)
    ensures stats.numPageImages == old(stats.numPageImages) + CountOk(queue, 0, |queue|)
    ensures forall e :: e in entries ==>
      EntryState(e.applyPending, e.pageImage, e.wakeups) == StateBetween(EntryState(old(e.applyPending), old(e.pageImage), old(e.wakeups)), queue, 0, |queue|, e)
  {
    ghost var base := map e | e in entries :: EntryState(e.applyPending, e.pageImage, e.wakeups);
    var consumed := 0;
    var inst := 0;
    var waiting := false;
    instances := [];
    while !waiting
      invariant Numbered(queue, consumed, inst, waiting, instances)
      invariant stats.numPageImages == old(stats.numPageImages) + CountOk(queue, 0, consumed)
      invariant Reflects(entries, base, queue, consumed)
      decreases |queue| - consumed, if waiting then 0 else 1
    {
      consumed, waiting, instances := RunInstance(stats, entries, queue, consumed, inst, instances, old(stats.numPageImages), base);
      inst := inst + 1;
    }
  }
}
