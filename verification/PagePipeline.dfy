/** `_iter_native_pdf_pages` of docmirror/evidence/plane.py: chunks of pages are submitted to workers, complete in any
    order, are consumed in order, and are retried serially when a worker fails or its reply is not the pages asked for. */
module PagePipeline {
  import opened Options

  datatype Page<C> = Page(index: int, content: C)

  /** What a worker sends back: an exception or some pages. */
  datatype Reply<C> = Failure | Pages(pages: seq<Page<C>>)

  datatype Chunk<C> = Chunk(start: nat, stop: nat, reply: Option<Reply<C>>)

  /** The fixed data of a run. `worker` is the reply to the chunk starting at a page, `accepts` says whether the pool
      accepts its submission, `extract` is the serial extraction of a page, None if it raises. */
  datatype Job<!C> = Job(pageCount: nat, granted: nat, extract: nat -> Option<C>, worker: nat -> Reply<C>, accepts: nat -> bool)

  /** `pending` is the deque, `next` the start of the next range, the counters are the statistics; `raised` says that the
      generator has ended with an exception. */
  datatype State<C> = State(next: nat, pending: seq<Chunk<C>>, yielded: seq<Page<C>>, chunks: nat, fallbackChunks: nat, raised: bool)

  /** The worker of the i-th pending chunk completes, or the consumer takes the first chunk and submits another. */
  datatype Event = Complete(i: nat) | Consume

  function ChunkSize(j: Job): (size: nat)
    requires j.granted > 0
    ensures 1 <= size <= 4
  {
    var perWorker := (j.pageCount + j.granted - 1) / j.granted;
    if perWorker <= 1 then 1 else if perWorker >= 4 then 4 else perWorker
  }

  /** A chunk has more than n pages, up to four, exactly if n pages for every worker are not enough. */
  lemma ChunkSizeIff<C>(j: Job<C>, n: nat)
    requires j.granted > 0 && 1 <= n < 4
    ensures ChunkSize(j) > n <==> j.pageCount > n * j.granted
  {
    RoundedUp(j.pageCount, j.granted, n);
  }

  lemma RoundedUp(a: nat, g: nat, n: nat)
    requires g > 0
    ensures (a + g - 1) / g > n <==> a > n * g
  {
    var q := (a + g - 1) / g;
    assert q * g <= a + g - 1 < q * g + g;
    if q > n {
      AtLeast(q, n + 1, g);
    } else {
      AtLeast(n, q, g);
    }
  }

  lemma AtLeast(p: nat, q: nat, g: nat)
    requires p >= q
    ensures p * g >= q * g
  {
  }

  function Stop(j: Job, start: nat): (stop: nat)
    requires j.granted > 0 && start < j.pageCount
    ensures start < stop <= j.pageCount
  {
    if start + ChunkSize(j) <= j.pageCount then start + ChunkSize(j) else j.pageCount
  }

  predicate CanExtract<C>(extract: nat -> Option<C>, start: nat, stop: nat) {
    forall k: nat | start <= k < stop :: extract(k).Some?
  }

  /** The pages of a range, extracted serially. */
  function Serial<C>(extract: nat -> Option<C>, start: nat, stop: nat): (r: seq<Page<C>>)
    requires start <= stop && CanExtract(extract, start, stop)
    ensures |r| == stop - start
  {
    seq(stop - start, k requires 0 <= k < stop - start => Page(start + k, extract(start + k).value))
  }

  predicate HasIndices<C>(pages: seq<Page<C>>, start: nat, stop: nat)
    requires start <= stop
  {
    |pages| == stop - start && forall k | 0 <= k < |pages| :: pages[k].index == start + k
  }

  predicate IsGood<C>(reply: Reply<C>, start: nat, stop: nat)
    requires start <= stop
  {
    reply.Pages? && HasIndices(reply.pages, start, stop)
  }

  /** `submit_next`: a submission that the pool refuses leaves an already failed future. */
  function Submit<C>(j: Job<C>, s: State<C>): State<C>
    requires j.granted > 0
  {
    if s.next >= j.pageCount then s
    else
      var reply := if j.accepts(s.next) then None else Some(Failure);
      s.(next := Stop(j, s.next), pending := s.pending + [Chunk(s.next, Stop(j, s.next), reply)], chunks := s.chunks + 1)
  }

  /** The first submissions: up to n of them. */
  function Fill<C>(j: Job<C>, n: nat): State<C>
    requires j.granted > 0
  {
    if n == 0 then State(0, [], [], 0, 0, false) else Submit(j, Fill(j, n - 1))
  }

  function Start<C>(j: Job<C>): State<C>
    requires j.granted > 0
  {
    Fill(j, 2 * j.granted)
  }

  predicate Enabled(s: State, e: Event) {
    && !s.raised
    && match e
       case Complete(i) => i < |s.pending| && s.pending[i].reply.None?
       case Consume => |s.pending| > 0 && s.pending[0].reply.Some?
  }

  predicate IsGoodChunk<C>(chunk: Chunk<C>)
    requires chunk.reply.Some?
  {
    chunk.start <= chunk.stop && IsGood(chunk.reply.value, chunk.start, chunk.stop)
  }

  /** The pages of a chunk whose future is done; None when its serial retry raises, and then none of its pages is yielded. */
  function Extracted<C>(j: Job<C>, chunk: Chunk<C>): Option<seq<Page<C>>>
    requires chunk.reply.Some?
  {
    if IsGoodChunk(chunk) then Some(chunk.reply.value.pages)
    else if chunk.start > chunk.stop then Some([])
    else if CanExtract(j.extract, chunk.start, chunk.stop) then Some(Serial(j.extract, chunk.start, chunk.stop))
    else None
  }

  function Step<C>(j: Job<C>, s: State<C>, e: Event): State<C>
    requires j.granted > 0 && Enabled(s, e)
  {
    match e
    case Complete(i) => s.(pending := s.pending[i := s.pending[i].(reply := Some(j.worker(s.pending[i].start)))])
    case Consume =>
      var chunk := s.pending[0];
      var taken := s.(pending := s.pending[1..], fallbackChunks := s.fallbackChunks + if IsGoodChunk(chunk) then 0 else 1);
      match Extracted(j, chunk)
      case None => taken.(raised := true)
      case Some(pages) => Submit(j, taken.(yielded := s.yielded + pages))
  }

  /** A run: events that are enabled when they happen. */
  ghost predicate IsRun<C>(j: Job<C>, s: State<C>, events: seq<Event>, t: State<C>)
    requires j.granted > 0
    decreases |events|
  {
    if |events| == 0 then s == t
    else Enabled(s, events[0]) && IsRun(j, Step(j, s, events[0]), events[1..], t)
  }

  // ----- What every step keeps -----

  /** The pending chunks are the next ranges after what was yielded, without gap or overlap. */
  ghost predicate Contiguous<C>(j: Job<C>, from: nat, pending: seq<Chunk<C>>, next: nat)
    requires j.granted > 0
    decreases |pending|
  {
    if |pending| == 0 then from == next
    else
      && from < j.pageCount && pending[0].start == from && pending[0].stop == Stop(j, from)
      && Contiguous(j, Stop(j, from), pending[1..], next)
  }

  /** Whole chunks have been yielded. After an exception the next one has a page that the serial extraction cannot do. */
  ghost predicate Inv<C>(j: Job<C>, s: State<C>)
    requires j.granted > 0
  {
    && HasIndices(s.yielded, 0, |s.yielded|)
    && (|s.yielded| % ChunkSize(j) == 0 || |s.yielded| == j.pageCount)
    && if s.raised then |s.yielded| < j.pageCount && !CanExtract(j.extract, |s.yielded|, Stop(j, |s.yielded|)) else Flows(j, s)
  }

  ghost predicate Flows<C>(j: Job<C>, s: State<C>)
    requires j.granted > 0
  {
    && s.next <= j.pageCount
    && Contiguous(j, |s.yielded|, s.pending, s.next)
    && |s.pending| <= 2 * j.granted
    && (s.next < j.pageCount ==> |s.pending| == 2 * j.granted)
    && s.fallbackChunks + |s.pending| <= s.chunks
    && (forall i | 0 <= i < |s.pending| && s.pending[i].reply.Some? ::
          s.pending[i].reply.value == Failure || s.pending[i].reply.value == j.worker(s.pending[i].start))
  }

  lemma {:induction false} ContiguousAppend<C>(j: Job<C>, from: nat, pending: seq<Chunk<C>>, next: nat, reply: Option<Reply<C>>)
    requires j.granted > 0 && Contiguous(j, from, pending, next) && next < j.pageCount
    ensures Contiguous(j, from, pending + [Chunk(next, Stop(j, next), reply)], Stop(j, next))
    decreases |pending|
  {
    var more := pending + [Chunk(next, Stop(j, next), reply)];
    if |pending| > 0 {
      ContiguousAppend(j, Stop(j, from), pending[1..], next, reply);
      assert more[1..] == pending[1..] + [Chunk(next, Stop(j, next), reply)];
    } else {
      assert more[1..] == [];
    }
  }

  lemma {:induction false} ContiguousUpdate<C>(j: Job<C>, from: nat, pending: seq<Chunk<C>>, next: nat, i: nat, reply: Option<Reply<C>>)
    requires j.granted > 0 && Contiguous(j, from, pending, next) && i < |pending|
    ensures Contiguous(j, from, pending[i := pending[i].(reply := reply)], next)
    decreases |pending|
  {
    if i > 0 {
      ContiguousUpdate(j, Stop(j, from), pending[1..], next, i - 1, reply);
      assert pending[i := pending[i].(reply := reply)][1..] == pending[1..][i - 1 := pending[i].(reply := reply)];
    } else {
      assert pending[i := pending[i].(reply := reply)][1..] == pending[1..];
    }
  }

  lemma {:induction false} FillKeeps<C>(j: Job<C>, n: nat)
    requires j.granted > 0 && n <= 2 * j.granted
    ensures var s := Fill(j, n);
            && s.next <= j.pageCount && s.yielded == [] && !s.raised && s.fallbackChunks == 0 && s.chunks == |s.pending|
            && Contiguous(j, 0, s.pending, s.next) && |s.pending| <= n
            && (s.next < j.pageCount ==> |s.pending| == n)
            && (forall i | 0 <= i < |s.pending| && s.pending[i].reply.Some? :: s.pending[i].reply.value == Failure)
  {
    if n > 0 {
      FillKeeps(j, n - 1);
      var s := Fill(j, n - 1);
      if s.next < j.pageCount {
        ContiguousAppend(j, 0, s.pending, s.next, if j.accepts(s.next) then None else Some(Failure));
      }
    }
  }

  lemma StartKeeps<C>(j: Job<C>)
    requires j.granted > 0
    ensures Inv(j, Start(j))
  {
    FillKeeps(j, 2 * j.granted);
  }

  lemma SubmitKeeps<C>(j: Job<C>, s: State<C>)
    requires j.granted > 0 && s.next <= j.pageCount && !s.raised
    requires HasIndices(s.yielded, 0, |s.yielded|) && Contiguous(j, |s.yielded|, s.pending, s.next)
    requires |s.yielded| % ChunkSize(j) == 0 || |s.yielded| == j.pageCount
    requires |s.pending| < 2 * j.granted && (s.next < j.pageCount ==> |s.pending| == 2 * j.granted - 1)
    requires s.fallbackChunks + |s.pending| <= s.chunks
    requires forall i | 0 <= i < |s.pending| && s.pending[i].reply.Some? ::
               s.pending[i].reply.value == Failure || s.pending[i].reply.value == j.worker(s.pending[i].start)
    ensures Inv(j, Submit(j, s))
  {
    if s.next < j.pageCount {
      ContiguousAppend(j, |s.yielded|, s.pending, s.next, if j.accepts(s.next) then None else Some(Failure));
    }
  }

  lemma AfterChunk(n: nat, size: nat)
    requires 1 <= size <= 4 && n % size == 0
    ensures (n + size) % size == 0
  {
    assert n % 2 == 0 ==> (n + 2) % 2 == 0;
    assert n % 3 == 0 ==> (n + 3) % 3 == 0;
    assert n % 4 == 0 ==> (n + 4) % 4 == 0;
    assert size == 1 || size == 2 || size == 3 || size == 4;
  }

  /** Every step keeps the invariant. */
  lemma StepKeeps<C>(j: Job<C>, s: State<C>, e: Event)
    requires j.granted > 0 && Inv(j, s) && Enabled(s, e)
    ensures Inv(j, Step(j, s, e))
  {
    match e
    case Complete(i) =>
      ContiguousUpdate(j, |s.yielded|, s.pending, s.next, i, Some(j.worker(s.pending[i].start)));
    case Consume =>
      var chunk := s.pending[0];
      var extracted := Extracted(j, chunk);
      if extracted.Some? {
        assert HasIndices(extracted.value, chunk.start, chunk.stop);
        AfterChunk(|s.yielded|, ChunkSize(j));
        SubmitKeeps(j, s.(pending := s.pending[1..], yielded := s.yielded + extracted.value,
                          fallbackChunks := s.fallbackChunks + if IsGoodChunk(chunk) then 0 else 1));
      }
  }

  /** So every state of every run has yielded pages 0, 1, 2, ... in order and keeps at most two chunks per worker pending. */
  lemma {:induction false} RunKeeps<C>(j: Job<C>, s: State<C>, events: seq<Event>, t: State<C>)
    requires j.granted > 0 && Inv(j, s) && IsRun(j, s, events, t)
    ensures Inv(j, t)
    decreases |events|
  {
    if |events| > 0 {
      StepKeeps(j, s, events[0]);
      RunKeeps(j, Step(j, s, events[0]), events[1..], t);
    }
  }

  /** Unless it raised, nothing is left to do exactly when all pages have been yielded. */
  lemma DoneIff<C>(j: Job<C>, s: State<C>)
    requires j.granted > 0 && Inv(j, s) && !s.raised
    ensures |s.pending| == 0 <==> |s.yielded| == j.pageCount
    ensures |s.pending| == 0 ==> s.next == j.pageCount
  {
  }

  /** Until then some event can happen: the first chunk can complete or be consumed. */
  lemma NeverStuck<C>(s: State<C>)
    requires |s.pending| > 0 && !s.raised
    ensures Enabled(s, Complete(0)) || Enabled(s, Consume)
  {
  }

  // ----- Every run ends -----

  function Running<C>(pending: seq<Chunk<C>>): nat {
    if |pending| == 0 then 0 else Running(pending[..|pending| - 1]) + if pending[|pending| - 1].reply.None? then 1 else 0
  }

  lemma {:induction false} RunningUpdate<C>(pending: seq<Chunk<C>>, i: nat, reply: Reply<C>)
    requires i < |pending| && pending[i].reply.None?
    ensures Running(pending[i := pending[i].(reply := Some(reply))]) == Running(pending) - 1
  {
    var after := pending[i := pending[i].(reply := Some(reply))];
    if i < |pending| - 1 {
      RunningUpdate(pending[..|pending| - 1], i, reply);
      assert after[..|pending| - 1] == pending[..|pending| - 1][i := pending[i].(reply := Some(reply))];
    } else {
      assert after[..|pending| - 1] == pending[..|pending| - 1];
    }
  }

  lemma {:induction false} RunningTail<C>(pending: seq<Chunk<C>>)
    requires |pending| > 0
    ensures Running(pending[1..]) == Running(pending) - if pending[0].reply.None? then 1 else 0
  {
    if |pending| > 1 {
      RunningTail(pending[..|pending| - 1]);
      assert pending[..|pending| - 1][1..] == pending[1..][..|pending[1..]| - 1];
    }
  }

  /** What is left: two units for a page not yet yielded, one for a running chunk. */
  ghost function Work<C>(j: Job<C>, s: State<C>): nat
    requires j.granted > 0 && Inv(j, s)
  {
    if s.raised then 0
    else
      AtMostPages(j, |s.yielded|, s.pending, s.next);
      2 * (j.pageCount - |s.yielded|) + Running(s.pending)
  }

  lemma {:induction false} AtMostPages<C>(j: Job<C>, from: nat, pending: seq<Chunk<C>>, next: nat)
    requires j.granted > 0 && Contiguous(j, from, pending, next) && next <= j.pageCount
    ensures from <= j.pageCount
  {
  }

  lemma StepWorks<C>(j: Job<C>, s: State<C>, e: Event)
    requires j.granted > 0 && Inv(j, s) && Enabled(s, e) && Inv(j, Step(j, s, e))
    ensures Work(j, Step(j, s, e)) < Work(j, s)
  {
    match e
    case Complete(i) => RunningUpdate(s.pending, i, j.worker(s.pending[i].start));
    case Consume =>
      RunningTail(s.pending);
      var t := Step(j, s, e);
      assert !t.raised && |t.pending| > |s.pending| - 1 ==> t.pending[..|t.pending| - 1] == s.pending[1..];
  }

  /** No schedule goes on forever. */
  lemma {:induction false} RunBound<C>(j: Job<C>, s: State<C>, events: seq<Event>, t: State<C>)
    requires j.granted > 0 && Inv(j, s) && IsRun(j, s, events, t) && Inv(j, t)
    ensures |events| + Work(j, t) <= Work(j, s)
    decreases |events|
  {
    if |events| > 0 {
      StepKeeps(j, s, events[0]);
      StepWorks(j, s, events[0]);
      RunBound(j, Step(j, s, events[0]), events[1..], t);
    }
  }

  // ----- Parallel equals serial -----

  /** Workers that reply at all send what the serial extraction gives for the pages they name. */
  ghost predicate Honest<C>(j: Job<C>) {
    forall start :: HonestReply(j, j.worker(start))
  }

  ghost predicate HonestReply<C>(j: Job<C>, reply: Reply<C>) {
    reply.Pages? ==>
      forall k | 0 <= k < |reply.pages| :: reply.pages[k].index >= 0 ==> j.extract(reply.pages[k].index) == Some(reply.pages[k].content)
  }

  /** The first pages of the serial extraction. */
  ghost predicate IsSerial<C>(extract: nat -> Option<C>, pages: seq<Page<C>>) {
    forall k: nat | k < |pages| :: pages[k].index == k && extract(k) == Some(pages[k].content)
  }

  lemma HonestAt<C>(extract: nat -> Option<C>, pages: seq<Page<C>>, start: nat, k: nat)
    requires k < |pages| && pages[k].index == start + k
    requires pages[k].index >= 0 ==> extract(pages[k].index) == Some(pages[k].content)
    ensures extract(start + k) == Some(pages[k].content) && pages[k] == Page(start + k, extract(start + k).value)
  {
  }

  lemma HonestIsSerial<C>(j: Job<C>, pages: seq<Page<C>>, start: nat, stop: nat)
    requires start <= stop && HasIndices(pages, start, stop) && HonestReply(j, Pages(pages))
    ensures CanExtract(j.extract, start, stop) && pages == Serial(j.extract, start, stop)
  {
    forall k: nat | start <= k < stop ensures j.extract(k).Some? {
      HonestAt(j.extract, pages, start, k - start);
    }
    forall k: nat | k < |pages| ensures pages[k] == Serial(j.extract, start, stop)[k] {
      HonestAt(j.extract, pages, start, k);
    }
  }

  /** What a chunk yields is the serial extraction of its range. */
  lemma ExtractedIsSerial<C>(j: Job<C>, chunk: Chunk<C>)
    requires chunk.reply.Some? && chunk.start <= chunk.stop && HonestReply(j, chunk.reply.value)
    ensures Extracted(j, chunk).Some? <==> CanExtract(j.extract, chunk.start, chunk.stop)
    ensures Extracted(j, chunk).Some? ==> Extracted(j, chunk).value == Serial(j.extract, chunk.start, chunk.stop)
  {
    if IsGoodChunk(chunk) {
      HonestIsSerial(j, chunk.reply.value.pages, chunk.start, chunk.stop);
    }
  }

  lemma SerialNext<C>(extract: nat -> Option<C>, pages: seq<Page<C>>, stop: nat)
    requires |pages| <= stop && IsSerial(extract, pages) && CanExtract(extract, |pages|, stop)
    ensures IsSerial(extract, pages + Serial(extract, |pages|, stop))
  {
  }

  lemma StepStaysSerial<C>(j: Job<C>, s: State<C>, e: Event)
    requires j.granted > 0 && Inv(j, s) && Enabled(s, e) && Honest(j) && IsSerial(j.extract, s.yielded)
    ensures IsSerial(j.extract, Step(j, s, e).yielded)
  {
    if e == Consume {
      var chunk := s.pending[0];
      assert HonestReply(j, j.worker(chunk.start));
      ExtractedIsSerial(j, chunk);
      if Extracted(j, chunk).Some? {
        SerialNext(j.extract, s.yielded, chunk.stop);
      }
    }
  }

  /** With honest workers every run yields, at every moment, the first pages of the serial extraction. */
  lemma {:induction false} RunStaysSerial<C>(j: Job<C>, s: State<C>, events: seq<Event>, t: State<C>)
    requires j.granted > 0 && Inv(j, s) && IsRun(j, s, events, t) && Honest(j) && IsSerial(j.extract, s.yielded)
    ensures IsSerial(j.extract, t.yielded)
    decreases |events|
  {
    if |events| > 0 {
      StepKeeps(j, s, events[0]);
      StepStaysSerial(j, s, events[0]);
      RunStaysSerial(j, Step(j, s, events[0]), events[1..], t);
    }
  }

  /** How many pages can be extracted in front of the first of n that cannot. */
  function Ready<C>(extract: nat -> Option<C>, n: nat): (k: nat)
    ensures k <= n && CanExtract(extract, 0, k) && (k < n ==> extract(k).None?)
  {
    if n == 0 then 0
    else
      var k := Ready(extract, n - 1);
      if k < n - 1 || extract(n - 1).None? then k else n
  }

  /** The pages of the whole chunks among them. */
  function PoolReady<C>(j: Job<C>): (m: nat)
    requires j.granted > 0
    ensures m <= Ready(j.extract, j.pageCount) && CanExtract(j.extract, 0, m)
  {
    var k := Ready(j.extract, j.pageCount);
    if k == j.pageCount then k
    else
      RoundedDown(k, ChunkSize(j));
      k / ChunkSize(j) * ChunkSize(j)
  }

  lemma RoundedDown(k: nat, size: nat)
    requires size > 0
    ensures k == k / size * size + k % size && k / size * size <= k
  {
  }

  /** Whole chunks are lost exactly if the first page that fails is inside one. */
  lemma PoolReadyIff<C>(j: Job<C>)
    requires j.granted > 0
    ensures var k := Ready(j.extract, j.pageCount);
            PoolReady(j) == k <==> k == j.pageCount || k % ChunkSize(j) == 0
  {
    RoundedDown(Ready(j.extract, j.pageCount), ChunkSize(j));
  }

  lemma LastWholeChunk(m: nat, k: nat, size: nat)
    requires 1 <= size <= 4 && m % size == 0 && m <= k < m + size
    ensures m == k / size * size
  {
    assert m % 2 == 0 && k < m + 2 ==> m == k / 2 * 2;
    assert m % 3 == 0 && k < m + 3 ==> m == k / 3 * 3;
    assert m % 4 == 0 && k < m + 4 ==> m == k / 4 * 4;
    assert size == 1 || size == 2 || size == 3 || size == 4;
  }

  /** How a generator may end: either it yields every page once, in order, or it raises behind the first pages, in order,
      because one of the next four cannot be extracted. With honest workers it raises exactly if the serial extraction
      would, and what it yields is the beginning of the serial extraction. */
  ghost predicate GoodEnd<C>(j: Job<C>, pages: seq<Page<C>>, raised: bool) {
    && HasIndices(pages, 0, |pages|)
    && (if raised then |pages| < j.pageCount && !CanExtract(j.extract, |pages|, AtMost(|pages| + 4, j.pageCount))
        else |pages| == j.pageCount)
    && (Honest(j) ==> IsSerial(j.extract, pages) && (raised <==> !CanExtract(j.extract, 0, j.pageCount)))
  }

  function AtMost(n: nat, most: nat): nat {
    if n <= most then n else most
  }

  /** A finished run, whatever the schedule and whatever failed on the way. */
  lemma FinishedRun<C>(j: Job<C>, events: seq<Event>, t: State<C>)
    requires j.granted > 0 && IsRun(j, Start(j), events, t) && (|t.pending| == 0 || t.raised)
    ensures GoodEnd(j, t.yielded, t.raised)
    ensures Honest(j) ==> t.yielded == Serial(j.extract, 0, PoolReady(j))
  {
    StartKeeps(j);
    FillKeeps(j, 2 * j.granted);
    RunKeeps(j, Start(j), events, t);
    if t.raised {
      var k: nat :| |t.yielded| <= k < Stop(j, |t.yielded|) && j.extract(k).None?;
      assert k < AtMost(|t.yielded| + 4, j.pageCount);
    } else {
      DoneIff(j, t);
    }
    if Honest(j) {
      RunStaysSerial(j, Start(j), events, t);
      PoolEnds(j, t);
    }
  }

  lemma PoolEnds<C>(j: Job<C>, t: State<C>)
    requires j.granted > 0 && Inv(j, t) && IsSerial(j.extract, t.yielded) && (|t.yielded| == j.pageCount || t.raised)
    ensures t.yielded == Serial(j.extract, 0, PoolReady(j))
  {
    var k := Ready(j.extract, j.pageCount);
    assert CanExtract(j.extract, 0, |t.yielded|) by {
      forall i: nat | i < |t.yielded| ensures j.extract(i).Some? {
        assert j.extract(i) == Some(t.yielded[i].content);
      }
    }
    if t.raised {
      assert |t.yielded| <= k < Stop(j, |t.yielded|);
      LastWholeChunk(|t.yielded|, k, ChunkSize(j));
    }
    assert |t.yielded| == PoolReady(j);
  }

  /** With honest workers pool and serial mode yield the same pages if and only if no page fails, or the first that fails is
      the first of its chunk. */
  lemma PoolIsSerialIff<C>(j: Job<C>, events: seq<Event>, t: State<C>)
    requires j.granted > 0 && IsRun(j, Start(j), events, t) && (|t.pending| == 0 || t.raised) && Honest(j)
    ensures var k := Ready(j.extract, j.pageCount);
            t.yielded == Serial(j.extract, 0, k) <==> k == j.pageCount || k % ChunkSize(j) == 0
  {
    FinishedRun(j, events, t);
    PoolReadyIff(j);
  }

  /** When the pool raises, fewer pages may have come out than the serial mode yields: on four pages and two workers page 0,
      which can be extracted, is lost with page 1, which cannot, when the worker of their chunk fails. */
  lemma ChunkLosesPages(j: Job<int>)
    requires j.granted == 2 && j.pageCount == 4 && (forall start :: j.accepts(start)) && j.worker(0) == Failure
    requires j.extract(0) == Some(7) && j.extract(1) == None
    ensures Enabled(Start(j), Complete(0)) && Enabled(Step(j, Start(j), Complete(0)), Consume)
    ensures var t := Step(j, Step(j, Start(j), Complete(0)), Consume); t.raised && t.yielded == []
  {
    assert ChunkSize(j) == 2;
    assert Fill(j, 0) == State(0, [], [], 0, 0, false);
    assert Fill(j, 1) == State(2, [] + [Chunk(0, 2, None)], [], 1, 0, false);
    assert Fill(j, 2) == State(4, [] + [Chunk(0, 2, None)] + [Chunk(2, 4, None)], [], 2, 0, false);
    assert Fill(j, 3) == Fill(j, 2) && Start(j) == Fill(j, 3);
    assert !CanExtract(j.extract, 0, 2) by {
      assert j.extract(1).None?;
    }
  }

  // ----- The generator -----

  class PageRun<C> {
    const job: Job<C>
    var next: nat
    var pending: seq<Chunk<C>>
    var yielded: seq<Page<C>>
    var chunks: nat
    var fallbackChunks: nat
    var raised: bool

    ghost function View(): State<C>
      reads this
    {
      State(next, pending, yielded, chunks, fallbackChunks, raised)
    }

    constructor (job: Job<C>)
      requires job.granted > 0
      ensures this.job == job && View() == Start(job)
    {
      this.job, next, pending, yielded, chunks, fallbackChunks, raised := job, 0, [], [], 0, 0, false;
      new;
      for k := 0 to 2 * job.granted
        invariant View() == Fill(job, k) && this.job == job
      {
        SubmitNext();
      }
    }

    method SubmitNext()
      requires job.granted > 0
      modifies this
      ensures View() == Submit(job, old(View()))
    {
      if next >= job.pageCount {
        return;
      }
      var start, stop := next, Stop(job, next);
      next := stop;
      pending := pending + [Chunk(start, stop, if job.accepts(start) then None else Some(Failure))];
      chunks := chunks + 1;
    }

    /** The environment: some worker finishes. */
    method CompleteChunk(i: nat)
      requires job.granted > 0 && Enabled(View(), Complete(i))
      modifies this`pending
      ensures View() == Step(job, old(View()), Complete(i))
    {
      pending := pending[i := pending[i].(reply := Some(job.worker(pending[i].start)))];
    }

    /** One turn of the consumer's loop once the first future has its result. */
    method ConsumeChunk()
      requires job.granted > 0 && Inv(job, View()) && Enabled(View(), Consume)
      modifies this
      ensures View() == Step(job, old(View()), Consume)
    {
      var chunk := pending[0];
      pending := pending[1..];
      var reply := chunk.reply.value;
      var extracted: seq<Page<C>>;
      if IsGood(reply, chunk.start, chunk.stop) {
        extracted := reply.pages;
      } else {
        fallbackChunks := fallbackChunks + 1;
        var retried := Retry(job.extract, chunk.start, chunk.stop);
        if retried.None? {
          raised := true;
          return;
        }
        extracted := retried.value;
      }
      yielded := yielded + extracted;
      SubmitNext();
    }

    /** The whole loop; while the first future is not done, workers finish in any order. */
    method Drain() returns (ghost events: seq<Event>)
      requires job.granted > 0 && Inv(job, View())
      modifies this
      ensures (|pending| == 0 || raised) && IsRun(job, old(View()), events, View())
    {
      events := [];
      while |pending| > 0 && !raised
        invariant Inv(job, View()) && IsRun(job, old(View()), events, View())
        decreases Work(job, View())
      {
        ghost var before, e := View(), Consume;
        if pending[0].reply.None? {
          var i :| 0 <= i < |pending| && pending[i].reply.None?;
          e := Complete(i);
          StepKeeps(job, before, e);
          CompleteChunk(i);
        } else {
          StepKeeps(job, before, e);
          ConsumeChunk();
        }
        StepWorks(job, before, e);
        RunAppend(job, old(View()), events, before, e);
        events := events + [e];
      }
    }
  }

  lemma {:induction false} RunAppend<C>(j: Job<C>, s: State<C>, events: seq<Event>, t: State<C>, e: Event)
    requires j.granted > 0 && IsRun(j, s, events, t) && Enabled(t, e)
    ensures IsRun(j, s, events + [e], Step(j, t, e))
    decreases |events|
  {
    if |events| > 0 {
      RunAppend(j, Step(j, s, events[0]), events[1..], t, e);
      assert (events + [e])[1..] == events[1..] + [e];
    } else {
      assert (events + [e])[1..] == [];
    }
  }

  /** How many workers are asked for. */
  function Workers(pageCount: nat, requested: int, cpus: int): (w: nat)
    ensures 1 <= w <= 4 && (w > 1 ==> w <= pageCount && w <= cpus && w <= requested)
  {
    var w := if requested < 1 then 1 else requested;
    var w := if w > 4 then 4 else w;
    var w := if w > cpus then (if cpus < 1 then 1 else cpus) else w;
    var pages := if pageCount > 0 then pageCount else 1;
    if w > pages then pages else w
  }

  /** The list comprehension of a retry: all pages of the range or an exception. */
  method Retry<C>(extract: nat -> Option<C>, start: nat, stop: nat) returns (pages: Option<seq<Page<C>>>)
    requires start <= stop
    ensures pages == if CanExtract(extract, start, stop) then Some(Serial(extract, start, stop)) else None
  {
    var list := [];
    for k := start to stop
      invariant CanExtract(extract, start, k) && list == Serial(extract, start, k)
    {
      var content := extract(k);
      if content.None? {
        return None;
      }
      list := list + [Page(k, content.value)];
    }
    pages := Some(list);
  }

  lemma {:induction false} ReadyStays<C>(extract: nat -> Option<C>, k: nat, n: nat)
    requires k < n && CanExtract(extract, 0, k) && extract(k).None?
    ensures Ready(extract, n) == k
  {
    if k < n - 1 {
      ReadyStays(extract, k, n - 1);
    } else {
      ReadyAll(extract, k);
    }
  }

  lemma {:induction false} ReadyAll<C>(extract: nat -> Option<C>, n: nat)
    requires CanExtract(extract, 0, n)
    ensures Ready(extract, n) == n
  {
    if n > 0 {
      ReadyAll(extract, n - 1);
      assert extract(n - 1).Some?;
    }
  }

  /** The serial modes: pages are yielded one by one until one raises. */
  method SerialPages<C>(job: Job<C>) returns (pages: seq<Page<C>>, raised: bool)
    ensures GoodEnd(job, pages, raised)
    ensures pages == Serial(job.extract, 0, Ready(job.extract, job.pageCount))
  {
    pages := [];
    for index := 0 to job.pageCount
      invariant |pages| == index && IsSerial(job.extract, pages) && Ready(job.extract, index) == index
    {
      var content := job.extract(index);
      if content.None? {
        ReadyStays(job.extract, index, job.pageCount);
        return pages, true;
      }
      pages := pages + [Page(index, content.value)];
    }
    raised := false;
  }

  predicate UsesPool<C>(job: Job<C>, requested: int, cpus: int, daemon: bool, poolStarts: bool) {
    Workers(job.pageCount, requested, cpus) > 1 && job.pageCount >= 4 && !daemon && job.granted > 1 && poolStarts
  }

  /** More than one worker is asked for exactly as far as the request, the processors and the pages allow, up to four. */
  lemma WorkersIff(pageCount: nat, requested: int, cpus: int, n: nat)
    requires n > 1
    ensures Workers(pageCount, requested, cpus) >= n <==> n <= requested && n <= cpus && n <= pageCount && n <= 4
  {
  }

  /** The pool is used exactly from two requested and granted workers, two processors and four pages on, outside of a daemon. */
  lemma PoolIff<C>(job: Job<C>, requested: int, cpus: int, daemon: bool, poolStarts: bool)
    ensures UsesPool(job, requested, cpus, daemon, poolStarts) <==>
            requested >= 2 && cpus >= 2 && job.pageCount >= 4 && job.granted >= 2 && !daemon && poolStarts
  {
    WorkersIff(job.pageCount, requested, cpus, 2);
  }

  /** `_iter_native_pdf_pages`: the serial modes and the pool. `granted` is the worker allocation, `poolStarts` says
      whether the pool can be created. */
  method IterPages<C>(job: Job<C>, requested: int, cpus: int, daemon: bool, poolStarts: bool)
    returns (pages: seq<Page<C>>, raised: bool)
    ensures GoodEnd(job, pages, raised)
    ensures !UsesPool(job, requested, cpus, daemon, poolStarts) ==> pages == Serial(job.extract, 0, Ready(job.extract, job.pageCount))
    ensures UsesPool(job, requested, cpus, daemon, poolStarts) && Honest(job) ==> pages == Serial(job.extract, 0, PoolReady(job))
  {
    if !UsesPool(job, requested, cpus, daemon, poolStarts) {
      pages, raised := SerialPages(job);
      return;
    }
    var run := new PageRun(job);
    StartKeeps(job);
    ghost var events := run.Drain();
    FinishedRun(job, events, run.View());
    return run.yielded, run.raised;
  }
}
