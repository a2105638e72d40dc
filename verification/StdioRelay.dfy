/**
 Relaying a container's standard input and output: the loop that polls the descriptors it
 reads from, buffers what it reads, writes what the other side will take, and closes the
 container's input once there is no more.
 */
module StdioRelay {

  /** A descriptor, or -1 for none. */
  type Fd = n: int | -1 <= n witness 0

  const STDIN: Fd := 0

  /**
   What happened on the descriptors. A Read names the descriptor that the bytes are for; one
   that Ended is not read from again; a descriptor is closed in the loop or after it.
   */
  datatype Event = Read(wanted: Fd, bytes: string) | Wrote(to: Fd, bytes: string) | Ended(from: Fd)
                 | Closed(fd: Fd, inLoop: bool)

  datatype Trace = Nothing | Then(before: Trace, event: Event)

  /** All the bytes read for a descriptor, in the order of reading. */
  function BytesIn(t: Trace, w: Fd): string {
    match t
    case Nothing => ""
    case Then(before, Read(v, b)) => if v == w then BytesIn(before, w) + b else BytesIn(before, w)
    case Then(before, _) => BytesIn(before, w)
  }

  /** All the bytes written to a descriptor, in the order of writing. */
  function BytesOut(t: Trace, w: Fd): string {
    match t
    case Nothing => ""
    case Then(before, Wrote(v, b)) => if v == w then BytesOut(before, w) + b else BytesOut(before, w)
    case Then(before, _) => BytesOut(before, w)
  }

  function Closes(t: Trace, fd: Fd): nat {
    if t.Nothing? then 0 else Closes(t.before, fd) + if t.event.Closed? && t.event.fd == fd then 1 else 0
  }

  predicate HasEnded(t: Trace, fd: Fd) {
    t.Then? && (HasEnded(t.before, fd) || t.event == Ended(fd))
  }

  predicate ClosedInLoop(t: Trace, fd: Fd) {
    t.Then? && (ClosedInLoop(t.before, fd) || t.event == Closed(fd, true))
  }

  /**
   When the loop closes the pipe, our standard input has ended and all that was read for
   the pipe has been written. Nothing is read for it after the end.
   */
  predicate ClosesWhenDone(t: Trace, pipe: Fd) {
    t.Then? ==>
      && ClosesWhenDone(t.before, pipe)
      && (t.event == Closed(pipe, true) ==>
        HasEnded(t.before, STDIN) && BytesIn(t.before, pipe) == BytesOut(t.before, pipe))
      && (t.event.Read? && t.event.wanted == pipe ==> !HasEnded(t.before, STDIN))
  }

  /** Nothing is written to a descriptor once it is closed, and it is not closed again. */
  predicate NoUseAfterClose(t: Trace) {
    t.Then? ==>
      && NoUseAfterClose(t.before)
      && (t.event.Wrote? ==> Closes(t.before, t.event.to) == 0)
      && (t.event.Closed? ==> Closes(t.before, t.event.fd) == 0)
  }

  // --------------------------------------------------------------------------------- the world outside

  /** Got("") is the end of the input. */
  datatype ReadResult = Got(bytes: string) | TryAgain | Failed

  /** What poll says of a descriptor, and what the reads that follow give. */
  datatype PollFd = PollFd(fd: Fd, hup: bool, nval: bool, ready: bool, chunks: seq<ReadResult>)

  datatype WriteResult = Took(n: nat) | WouldBlock | Broken

  /** One turn of the loop as the world outside has it. No descriptor is ready if poll was interrupted. */
  datatype Round = Round(pollFails: bool, polled: seq<PollFd>, writes: Fd -> WriteResult)

  // ------------------------------------------------------------------------------ what one turn is to do

  /** What is read, from the i-th chunk on, when no more will come: all there is. */
  function Remainder(chunks: seq<ReadResult>, i: nat): string
    decreases |chunks| - i
  {
    if i < |chunks| && chunks[i].Got? && chunks[i].bytes != "" then chunks[i].bytes + Remainder(chunks, i + 1) else ""
  }

  /** What is read from a descriptor in one turn. */
  function Taken(p: PollFd): string {
    if p.ready && p.chunks != [] && p.chunks[0].Got? && p.chunks[0].bytes != "" then
      if p.hup then Remainder(p.chunks, 0) else p.chunks[0].bytes
    else ""
  }

  predicate ReadFails(p: PollFd) {
    p.ready && p.chunks != [] && p.chunks[0].Failed?
  }

  /** One of the first k descriptors is relayed, and reading from it fails. */
  predicate AnyFails(polled: seq<PollFd>, relay: map<Fd, Fd>, k: nat)
    requires k <= |polled|
  {
    exists j :: 0 <= j < k && polled[j].fd in relay && ReadFails(polled[j])
  }

  /** There is an event on the descriptor that tells us to finish. */
  predicate IsFinished(polled: seq<PollFd>, finish: Fd) {
    exists j :: 0 <= j < |polled| && polled[j].fd == finish && (polled[j].hup || polled[j].nval || polled[j].ready)
  }

  /** Which descriptors are not to be read from again. */
  predicate IsOver(p: PollFd, relay: map<Fd, Fd>) {
    p.hup || p.nval || (p.ready && p.fd == STDIN && p.fd in relay && p.chunks != [] && p.chunks[0] == Got(""))
  }

  /** What the first k of the descriptors that were polled have for w, up to one that can not be read. */
  function TakenFor(polled: seq<PollFd>, relay: map<Fd, Fd>, w: Fd, k: nat): string
    requires k <= |polled|
  {
    if k == 0 then ""
    else
      var p := polled[k - 1];
      var more := if p.fd in relay && relay[p.fd] == w && !AnyFails(polled, relay, k) then Taken(p) else "";
      TakenFor(polled, relay, w, k - 1) + more
  }

  /** What is left of a buffer after a write. */
  function Left(buffer: string, result: WriteResult): string {
    if result.Took? then if result.n <= |buffer| then buffer[result.n..] else "" else buffer
  }

  // ------------------------------------------------------------------------------------- what is kept

  /** What was read for a descriptor is what was written to it and, after that, what is buffered. */
  ghost predicate Conserves(buffer: map<Fd, string>, t: Trace) {
    forall w :: w in buffer ==> BytesIn(t, w) == BytesOut(t, w) + buffer[w]
  }

  ghost predicate Injective(relay: map<Fd, Fd>) {
    forall r, s :: r in relay && s in relay && relay[r] == relay[s] ==> r == s
  }

  lemma ConservesRead(buffer: map<Fd, string>, t: Trace, w: Fd, b: string)
    requires Conserves(buffer, t) && w in buffer
    ensures Conserves(buffer[w := buffer[w] + b], Then(t, Read(w, b)))
  {
    assert BytesOut(t, w) + (buffer[w] + b) == (BytesOut(t, w) + buffer[w]) + b;
  }

  lemma ConservesWrite(buffer: map<Fd, string>, t: Trace, w: Fd, n: nat)
    requires Conserves(buffer, t) && w in buffer && n <= |buffer[w]|
    ensures Conserves(buffer[w := buffer[w][n..]], Then(t, Wrote(w, buffer[w][..n])))
  {
    assert buffer[w] == buffer[w][..n] + buffer[w][n..];
    assert BytesOut(t, w) + buffer[w] == (BytesOut(t, w) + buffer[w][..n]) + buffer[w][n..];
  }

  /** Other events move no bytes. */
  lemma ConservesOther(buffer: map<Fd, string>, t: Trace, event: Event)
    requires Conserves(buffer, t) && (event.Closed? || event.Ended?)
    ensures Conserves(buffer, Then(t, event))
  {
  }

  /** What the trace says about ends and closes: our input has ended, and the loop has closed the pipe. */
  ghost predicate TraceFits(t: Trace, copyPipes: bool, pipe: Fd, ended: bool, closed: bool) {
    && NoUseAfterClose(t)
    && (forall fd :: Closes(t, fd) == if closed && fd == pipe then 1 else 0)
    && HasEnded(t, STDIN) == ended
    && (copyPipes ==> ClosesWhenDone(t, pipe) && ClosedInLoop(t, pipe) == closed)
  }

  lemma FitsRead(t: Trace, copyPipes: bool, pipe: Fd, ended: bool, closed: bool, w: Fd, b: string)
    requires TraceFits(t, copyPipes, pipe, ended, closed) && (copyPipes && w == pipe ==> !ended)
    ensures TraceFits(Then(t, Read(w, b)), copyPipes, pipe, ended, closed)
  {
    var t' := Then(t, Read(w, b));
    assert HasEnded(t', STDIN) == HasEnded(t, STDIN) && ClosedInLoop(t', pipe) == ClosedInLoop(t, pipe);
  }

  lemma FitsWrite(t: Trace, copyPipes: bool, pipe: Fd, ended: bool, closed: bool, w: Fd, b: string)
    requires TraceFits(t, copyPipes, pipe, ended, closed) && !(closed && w == pipe)
    ensures TraceFits(Then(t, Wrote(w, b)), copyPipes, pipe, ended, closed)
  {
    var t' := Then(t, Wrote(w, b));
    assert HasEnded(t', STDIN) == HasEnded(t, STDIN) && ClosedInLoop(t', pipe) == ClosedInLoop(t, pipe);
  }

  lemma FitsEnd(t: Trace, copyPipes: bool, pipe: Fd, ended: bool, closed: bool, fd: Fd)
    requires TraceFits(t, copyPipes, pipe, ended, closed)
    ensures TraceFits(Then(t, Ended(fd)), copyPipes, pipe, ended || fd == STDIN, closed)
  {
    var t' := Then(t, Ended(fd));
    assert HasEnded(t', STDIN) == (HasEnded(t, STDIN) || fd == STDIN);
    assert ClosedInLoop(t', pipe) == ClosedInLoop(t, pipe);
  }

  lemma FitsClose(t: Trace, pipe: Fd)
    requires TraceFits(t, true, pipe, true, false) && BytesIn(t, pipe) == BytesOut(t, pipe)
    ensures TraceFits(Then(t, Closed(pipe, true)), true, pipe, true, true)
  {
    var t' := Then(t, Closed(pipe, true));
    assert HasEnded(t', STDIN) == HasEnded(t, STDIN) && ClosedInLoop(t', pipe);
  }

  /** The close after the loop, if there was none in it. */
  lemma FinallyClosed(t: Trace, pipe: Fd, ended: bool)
    requires TraceFits(t, true, pipe, ended, false)
    ensures var t' := Then(t, Closed(pipe, false));
      && NoUseAfterClose(t') && Closes(t', pipe) == 1 && ClosesWhenDone(t', pipe) && !ClosedInLoop(t', pipe)
      && HasEnded(t', STDIN) == ended
      && BytesIn(t', pipe) == BytesIn(t, pipe) && BytesOut(t', pipe) == BytesOut(t, pipe)
  {
    var t' := Then(t, Closed(pipe, false));
    assert HasEnded(t', STDIN) == HasEnded(t, STDIN) && ClosedInLoop(t', pipe) == ClosedInLoop(t, pipe);
  }

  lemma Joins(a: string, b: string, c: string)
    ensures a + (b + c) == (a + b) + c
  {
  }

  /** What a write did not take is left; an empty buffer is not written. */
  ghost predicate AllWritten(buffer: map<Fd, string>, buffer': map<Fd, string>,
                               writes: Fd -> WriteResult, done: set<Fd>) {
    && buffer'.Keys == buffer.Keys
    && forall w :: w in buffer ==>
      buffer'[w] == if w in done && buffer[w] != "" then Left(buffer[w], writes(w)) else buffer[w]
  }

  /** A buffer holds what it held, and after that what was read for it from one descriptor. */
  ghost predicate Grown(buffer: map<Fd, string>, buffer': map<Fd, string>, p: PollFd, relay: map<Fd, Fd>) {
    && buffer'.Keys == buffer.Keys
    && forall w :: w in buffer ==>
      buffer'[w] == if p.fd in relay && relay[p.fd] == w && Taken(p) != "" then buffer[w] + Taken(p) else buffer[w]
  }

  /** A buffer holds what it held, and after that what was read for it from the first k descriptors. */
  ghost predicate AllTaken(buffer: map<Fd, string>, buffer': map<Fd, string>,
                           polled: seq<PollFd>, relay: map<Fd, Fd>, k: nat)
    requires k <= |polled|
  {
    && buffer'.Keys == buffer.Keys
    && forall w :: w in buffer ==> buffer'[w] == buffer[w] + TakenFor(polled, relay, w, k)
  }

  // --------------------------------------------------------------------------- what many turns are to do

  /** The descriptors that are relayed, and what is buffered. */
  datatype Flow = Flow(relay: map<Fd, Fd>, buffer: map<Fd, string>)

  /** What a turn reads for w. */
  function Given(f: Flow, round: Round, w: Fd): string {
    if round.pollFails then "" else TakenFor(round.polled, f.relay, w, |round.polled|)
  }

  function Full(f: Flow, round: Round, w: Fd): string
    requires w in f.buffer
  {
    f.buffer[w] + Given(f, round, w)
  }

  /** Waiting, reading or writing fails in this turn. */
  predicate Fails(f: Flow, round: Round) {
    || round.pollFails
    || AnyFails(round.polled, f.relay, |round.polled|)
    || exists w :: w in f.buffer && Full(f, round, w) != "" && round.writes(w).Broken?
  }

  /** The turn is the last one, as long as there is something to relay. */
  predicate IsLast(f: Flow, round: Round, finish: Fd) {
    Fails(f, round) || IsFinished(round.polled, finish)
  }

  function NextFlow(f: Flow, round: Round): Flow {
    Flow(f.relay - Over(round.polled, f.relay, |round.polled|),
         map w | w in f.buffer :: if Full(f, round, w) != "" then Left(Full(f, round, w), round.writes(w)) else "")
  }

  /** The state after n turns that did not fail. */
  function FlowAfter(f: Flow, rounds: seq<Round>, n: nat): Flow
    requires n <= |rounds|
  {
    if n == 0 then f else NextFlow(FlowAfter(f, rounds, n - 1), rounds[n - 1])
  }

  /** What the first n turns have for w. */
  function InputFor(f: Flow, rounds: seq<Round>, w: Fd, n: nat): string
    requires n <= |rounds|
  {
    if n == 0 then "" else InputFor(f, rounds, w, n - 1) + Given(FlowAfter(f, rounds, n - 1), rounds[n - 1], w)
  }

  ghost predicate ReadsAlike(t: Trace, t': Trace) {
    forall w :: BytesIn(t', w) == BytesIn(t, w)
  }

  ghost predicate WritesAlike(t: Trace, t': Trace) {
    forall w :: BytesOut(t', w) == BytesOut(t, w)
  }

  lemma AlikeItself(t: Trace)
    ensures WritesAlike(t, t)
  {
  }

  lemma AlikeTwice(t: Trace, t': Trace, t'': Trace)
    requires WritesAlike(t, t') && WritesAlike(t', t'')
    ensures WritesAlike(t, t'')
  {
  }

  /** The bytes of one turn were read. */
  ghost predicate ReadsMore(t: Trace, t': Trace, f: Flow, round: Round) {
    forall w :: w in f.buffer ==> BytesIn(t', w) == BytesIn(t, w) + Given(f, round, w)
  }

  lemma GrownKeys(buffer: map<Fd, string>, buffer': map<Fd, string>, p: PollFd, relay: map<Fd, Fd>)
    requires Grown(buffer, buffer', p, relay)
    ensures buffer'.Keys == buffer.Keys
  {
  }

  lemma NoneTaken(buffer: map<Fd, string>, polled: seq<PollFd>, relay: map<Fd, Fd>)
    ensures AllTaken(buffer, buffer, polled, relay, 0)
  {
    assert forall w :: w in buffer ==> buffer[w] == buffer[w] + "";
  }

  lemma OneMoreTaken(buffer: map<Fd, string>, before: map<Fd, string>, after: map<Fd, string>,
                     polled: seq<PollFd>, relay: map<Fd, Fd>, k: nat)
    requires k < |polled| && AllTaken(buffer, before, polled, relay, k) && Grown(before, after, polled[k], relay)
    requires !AnyFails(polled, relay, k)
    ensures AllTaken(buffer, after, polled, relay, k + 1)
  {
    var p := polled[k];
    assert AnyFails(polled, relay, k + 1) <==> p.fd in relay && ReadFails(p);
    assert ReadFails(p) ==> Taken(p) == "";
    hide AnyFails;
    forall w | w in buffer
      ensures after[w] == buffer[w] + TakenFor(polled, relay, w, k + 1)
    {
      var more := if p.fd in relay && relay[p.fd] == w && !AnyFails(polled, relay, k + 1) then Taken(p) else "";
      Joins(buffer[w], TakenFor(polled, relay, w, k), more);
    }
  }

  /** After a descriptor that can not be read, nothing more is. */
  lemma {:induction false} NoMoreTaken(polled: seq<PollFd>, relay: map<Fd, Fd>, w: Fd, k: nat, n: nat)
    requires k <= n <= |polled| && AnyFails(polled, relay, k)
    ensures TakenFor(polled, relay, w, n) == TakenFor(polled, relay, w, k)
    decreases n
  {
    if k < n {
      NoMoreTaken(polled, relay, w, k, n - 1);
      assert AnyFails(polled, relay, n);
    }
  }

  lemma AllTakenAfterFailure(buffer: map<Fd, string>, buffer': map<Fd, string>, polled: seq<PollFd>,
                             relay: map<Fd, Fd>, k: nat)
    requires k <= |polled| && AnyFails(polled, relay, k) && AllTaken(buffer, buffer', polled, relay, k)
    ensures AllTaken(buffer, buffer', polled, relay, |polled|)
  {
    forall w | w in buffer
      ensures buffer'[w] == buffer[w] + TakenFor(polled, relay, w, |polled|)
    {
      NoMoreTaken(polled, relay, w, k, |polled|);
    }
  }

  lemma {:induction false} OverIsPolled(polled: seq<PollFd>, relay: map<Fd, Fd>, k: nat, fds: set<Fd>)
    requires k <= |polled| && forall j :: 0 <= j < k ==> polled[j].fd in fds
    ensures Over(polled, relay, k) <= fds
  {
    if k > 0 {
      OverIsPolled(polled, relay, k - 1, fds);
    }
  }

  /** The descriptors among the first k that are not to be read from again. */
  function Over(polled: seq<PollFd>, relay: map<Fd, Fd>, k: nat): set<Fd>
    requires k <= |polled|
  {
    if k == 0 then {}
    else Over(polled, relay, k - 1) + if IsOver(polled[k - 1], relay) then {polled[k - 1].fd} else {}
  }

  class Relay {
    /** With pipes, the end of the container's standard input that is written to. */
    const pipe: Fd
    const copyPipes: bool
    const finish: Fd

    var relayMap: map<Fd, Fd>
    var relayBuffer: map<Fd, string>
    /** stdioPipe[unix.Stdin][1], which is set to -1 when it is closed. */
    var stdinPipe: Fd
    var closeStdin: bool
    ghost var trace: Trace

    /** What holds throughout. */
    ghost predicate Valid()
      reads this
    {
      && Injective(relayMap) && (forall r :: r in relayMap ==> relayMap[r] in relayBuffer)
      && Conserves(relayBuffer, trace)
      && TraceFits(trace, copyPipes, pipe, STDIN !in relayMap, copyPipes && stdinPipe == -1)
      && finish != STDIN && (copyPipes ==> pipe >= 0 && pipe in relayBuffer && InputFits())
      && (!copyPipes ==> !closeStdin)
    }

    /** Our standard input is relayed to the pipe, and nothing else is. The pipe is closed after that stopped. */
    ghost predicate InputFits()
      requires pipe in relayBuffer
      reads this
    {
      && (STDIN in relayMap ==> relayMap[STDIN] == pipe)
      && (forall r :: r in relayMap && relayMap[r] == pipe ==> r == STDIN)
      && (closeStdin <==> STDIN !in relayMap)
      && (stdinPipe == pipe || stdinPipe == -1)
      && (stdinPipe == -1 ==> closeStdin && relayBuffer[pipe] == "")
    }

    /** Between rounds, input that has ended and been passed on is closed. */
    ghost predicate Prompt()
      reads this
    {
      copyPipes && closeStdin && pipe in relayBuffer && relayBuffer[pipe] == "" ==> stdinPipe == -1
    }

    constructor Pipes(stdin: Fd, stdout: Fd, stderr: Fd, finish: Fd)
      requires stdin >= 0 && stdin != 1 && stdin != 2 && stdout != STDIN && stderr != STDIN && stdout != stderr
      requires finish != STDIN
      ensures Valid() && Prompt() && copyPipes && pipe == stdin && trace == Nothing
      ensures relayMap == map[STDIN := stdin, stdout := 1, stderr := 2]
      ensures forall w :: w in relayBuffer ==> relayBuffer[w] == ""
    {
      this.pipe, this.copyPipes, this.finish := stdin, true, finish;
      relayMap := map[STDIN := stdin, stdout := 1, stderr := 2];
      relayBuffer := map[stdin := "", 1 := "", 2 := ""];
      stdinPipe, closeStdin, trace := stdin, false, Nothing;
    }

    constructor Terminal(terminal: Fd, finish: Fd)
      requires terminal > 2 && finish != STDIN
      ensures Valid() && Prompt() && !copyPipes && trace == Nothing
      ensures relayMap == map[STDIN := terminal, terminal := 1]
      ensures forall w :: w in relayBuffer ==> relayBuffer[w] == ""
    {
      this.pipe, this.copyPipes, this.finish := -1, false, finish;
      relayMap := map[STDIN := terminal, terminal := 1];
      relayBuffer := map[terminal := "", 1 := ""];
      stdinPipe, closeStdin, trace := -1, false, Nothing;
    }

    method Buffer(w: Fd, b: string)
      requires Valid() && Prompt() && w in relayBuffer && (copyPipes && w == pipe ==> STDIN in relayMap)
      modifies this`relayBuffer, this`trace
      ensures Valid() && Prompt() && relayBuffer == old(relayBuffer)[w := old(relayBuffer)[w] + b]
      ensures WritesAlike(old(trace), trace)
    {
      hide TraceFits;
      FitsRead(trace, copyPipes, pipe, STDIN !in relayMap, copyPipes && stdinPipe == -1, w, b);
      ConservesRead(relayBuffer, trace, w, b);
      trace := Then(trace, Read(w, b));
      relayBuffer := relayBuffer[w := relayBuffer[w] + b];
    }

    /** The rest of what there is, if no more will come. */
    method ReadOn(w: Fd, chunks: seq<ReadResult>)
      requires Valid() && Prompt() && w in relayBuffer && (copyPipes && w == pipe ==> STDIN in relayMap)
      modifies this`relayBuffer, this`trace
      ensures Valid() && Prompt() && relayBuffer == old(relayBuffer)[w := old(relayBuffer)[w] + Remainder(chunks, 1)]
      ensures WritesAlike(old(trace), trace)
    {
      hide Valid;
      hide Prompt;
      var i := 1;
      ghost var all := old(relayBuffer)[w] + Remainder(chunks, 1);
      while i < |chunks|
        invariant Valid() && Prompt() && w in relayBuffer && relayBuffer[w] + Remainder(chunks, i) == all
        invariant relayBuffer == old(relayBuffer)[w := relayBuffer[w]] && WritesAlike(old(trace), trace)
      {
        if !chunks[i].Got? || chunks[i].bytes == "" {
          break;
        }
        Joins(relayBuffer[w], chunks[i].bytes, Remainder(chunks, i + 1));
        Buffer(w, chunks[i].bytes);
        i := i + 1;
      }
      assert relayBuffer[w] == relayBuffer[w] + Remainder(chunks, i);
    }

    /** What is done about one descriptor that was polled. */
    method ReadFrom(p: PollFd) returns (ok: bool, remove: bool)
      requires Valid() && Prompt()
      modifies this`relayBuffer, this`trace
      ensures Valid() && Prompt() && (ok <==> !(p.fd in relayMap && ReadFails(p)))
      ensures ok ==> (remove <==> IsOver(p, relayMap))
      ensures Grown(old(relayBuffer), relayBuffer, p, relayMap) && WritesAlike(old(trace), trace)
    {
      hide TraceFits;
      hide Conserves;
      hide Injective;
      hide WritesAlike;
      AlikeItself(trace);
      ok, remove := true, p.hup || p.nval;
      if !p.ready || p.fd !in relayMap || p.chunks == [] {
        return;
      }
      var w := relayMap[p.fd];
      match p.chunks[0] {
        case Failed =>
          ok := false;
        case TryAgain =>
        case Got(bytes) =>
          if bytes == "" {
            if p.fd == STDIN {
              remove := true;
            }
          } else {
            Buffer(w, bytes);
            if p.hup {
              Joins(old(relayBuffer)[w], bytes, Remainder(p.chunks, 1));
              ghost var t1 := trace;
              ReadOn(w, p.chunks);
              AlikeTwice(old(trace), t1, trace);
            }
          }
      }
    }

    method ReadAll(polled: seq<PollFd>) returns (ok: bool, removes: set<Fd>)
      requires Valid() && Prompt()
      modifies this`relayBuffer, this`trace
      ensures Valid() && Prompt()
      ensures relayBuffer.Keys == old(relayBuffer).Keys && (ok <==> !AnyFails(polled, relayMap, |polled|))
      ensures ok ==> removes == Over(polled, relayMap, |polled|)
      ensures AllTaken(old(relayBuffer), relayBuffer, polled, relayMap, |polled|) && WritesAlike(old(trace), trace)
    {
      hide Valid;
      hide Prompt;
      hide Taken;
      hide IsOver;
      hide ReadFails;
      hide Grown;
      hide AllTaken;
      NoneTaken(relayBuffer, polled, relayMap);
      ok, removes := true, {};
      for k := 0 to |polled|
        invariant Valid() && Prompt() && relayBuffer.Keys == old(relayBuffer).Keys
        invariant ok && !AnyFails(polled, relayMap, k)
        invariant removes == Over(polled, relayMap, k)
        invariant AllTaken(old(relayBuffer), relayBuffer, polled, relayMap, k) && WritesAlike(old(trace), trace)
      {
        ghost var before := relayBuffer;
        var remove;
        ok, remove := ReadFrom(polled[k]);
        GrownKeys(before, relayBuffer, polled[k], relayMap);
        OneMoreTaken(old(relayBuffer), before, relayBuffer, polled, relayMap, k);
        if remove {
          removes := removes + {polled[k].fd};
        }
        if !ok {
          assert AnyFails(polled, relayMap, k + 1) && AnyFails(polled, relayMap, |polled|);
          AllTakenAfterFailure(old(relayBuffer), relayBuffer, polled, relayMap, k + 1);
          return;
        }
      }
    }

    /** Close the container's input. */
    method CloseInput()
      requires Valid() && copyPipes && stdinPipe == pipe && closeStdin && relayBuffer[pipe] == ""
      modifies this`stdinPipe, this`trace
      ensures Valid() && stdinPipe == -1 && ReadsAlike(old(trace), trace)
    {
      hide TraceFits;
      assert BytesIn(trace, pipe) == BytesOut(trace, pipe) + "";
      FitsClose(trace, pipe);
      ConservesOther(relayBuffer, trace, Closed(pipe, true));
      trace := Then(trace, Closed(pipe, true));
      stdinPipe := -1;
    }

    /** The first bytes of a buffer are written. */
    method Pass(w: Fd, n: nat)
      requires Valid() && w in relayBuffer && relayBuffer[w] != "" && n <= |relayBuffer[w]|
      modifies this`relayBuffer, this`trace
      ensures Valid() && relayBuffer == old(relayBuffer)[w := old(relayBuffer)[w][n..]]
      ensures trace == Then(old(trace), Wrote(w, old(relayBuffer)[w][..n]))
    {
      hide TraceFits;
      FitsWrite(trace, copyPipes, pipe, STDIN !in relayMap, copyPipes && stdinPipe == -1, w, relayBuffer[w][..n]);
      ConservesWrite(relayBuffer, trace, w, n);
      trace := Then(trace, Wrote(w, relayBuffer[w][..n]));
      relayBuffer := relayBuffer[w := relayBuffer[w][n..]];
    }

    /** Write to one descriptor as much as it takes. */
    method WriteTo(w: Fd, result: WriteResult) returns (ok: bool)
      requires Valid() && Prompt() && w in relayBuffer && relayBuffer[w] != ""
      modifies this`relayBuffer, this`trace, this`stdinPipe
      ensures Valid() && Prompt() && relayBuffer.Keys == old(relayBuffer).Keys
      ensures ok <==> !result.Broken?
      ensures relayBuffer == old(relayBuffer)[w := Left(old(relayBuffer)[w], result)]
      ensures ReadsAlike(old(trace), trace)
    {
      hide TraceFits;
      ok := !result.Broken?;
      if result.Took? {
        // No more is taken than there is.
        var n := if result.n <= |relayBuffer[w]| then result.n else |relayBuffer[w]|;
        Pass(w, n);
      }
      if ok && closeStdin && w == stdinPipe && stdinPipe >= 0 && relayBuffer[w] == "" {
        CloseInput();
      }
    }

    method Drain(writes: Fd -> WriteResult) returns (ok: bool)
      requires Valid() && Prompt()
      modifies this`relayBuffer, this`trace, this`stdinPipe
      ensures Valid() && Prompt() && relayBuffer.Keys == old(relayBuffer).Keys
      ensures ok <==> forall w :: w in old(relayBuffer) && old(relayBuffer)[w] != "" ==> !writes(w).Broken?
      ensures ok ==> AllWritten(old(relayBuffer), relayBuffer, writes, relayBuffer.Keys)
      ensures ReadsAlike(old(trace), trace)
    {
      hide Valid;
      hide Prompt;
      ok := true;
      var rest := relayBuffer.Keys;
      while rest != {}
        invariant Valid() && Prompt() && rest <= relayBuffer.Keys && ok
        invariant AllWritten(old(relayBuffer), relayBuffer, writes, relayBuffer.Keys - rest)
        invariant forall w :: w in relayBuffer.Keys - rest && old(relayBuffer)[w] != "" ==> !writes(w).Broken?
        invariant ReadsAlike(old(trace), trace)
        decreases |rest|
      {
        var w :| w in rest;
        rest := rest - {w};
        if relayBuffer[w] != "" {
          ok := WriteTo(w, writes(w));
          if !ok {
            return;
          }
        }
      }
    }

    /** One descriptor is no longer read from. */
    method Remove(r: Fd)
      requires Valid() && Prompt() && (r in relayMap || r == finish)
      modifies this`relayMap, this`closeStdin, this`stdinPipe, this`trace
      ensures Valid() && Prompt() && relayMap == old(relayMap) - {r} && ReadsAlike(old(trace), trace)
    {
      hide TraceFits;
      var closing := copyPipes && r == STDIN;
      FitsEnd(trace, copyPipes, pipe, STDIN !in relayMap, copyPipes && stdinPipe == -1, r);
      ConservesOther(relayBuffer, trace, Ended(r));
      relayMap, trace := relayMap - {r}, Then(trace, Ended(r));
      if closing {
        closeStdin := true;
        if relayBuffer[stdinPipe] == "" {
          CloseInput();
        }
      }
    }

    method RemoveAll(removes: set<Fd>)
      requires Valid() && Prompt() && forall r :: r in removes ==> r in relayMap || r == finish
      modifies this`relayMap, this`closeStdin, this`stdinPipe, this`trace
      ensures Valid() && Prompt() && relayMap == old(relayMap) - removes && ReadsAlike(old(trace), trace)
    {
      hide Valid;
      hide Prompt;
      var rest := removes;
      while rest != {}
        invariant Valid() && Prompt() && rest <= removes && relayMap == old(relayMap) - (removes - rest)
        invariant ReadsAlike(old(trace), trace)
        decreases |rest|
      {
        var r :| r in rest;
        Remove(r);
        rest := rest - {r};
      }
    }

    /**
     One turn of the loop. It is the last if and only if something failed or we were told to
     finish. What the descriptors had was read in any case, up to one that could not be read.
     */
    method Turn(round: Round) returns (last: bool)
      requires Valid() && Prompt()
      requires forall k :: 0 <= k < |round.polled| ==> round.polled[k].fd in relayMap || round.polled[k].fd == finish
      modifies this
      ensures Valid() && Prompt() && relayBuffer.Keys == old(relayBuffer).Keys
      ensures last <==> IsLast(old(Now()), round, finish)
      ensures !Fails(old(Now()), round) ==> Now() == NextFlow(old(Now()), round)
      ensures ReadsMore(old(trace), trace, old(Now()), round)
    {
      hide *;
      ghost var flow, t0, b0 := Now(), trace, relayBuffer;
      NowIs();
      if round.pollFails {
        PollFailed(t0, flow, round);
        return true;
      }
      ValidConserves();
      var ok, removes := ReadAll(round.polled);
      ValidConserves();
      ReadsAreGiven(t0, trace, b0, relayBuffer, flow, round);
      ghost var t1, b1 := trace, relayBuffer;
      if !ok {
        FailsWhenRead(flow, round, finish);
        return true;
      }
      ok := Drain(round.writes);
      ReadsStay(t0, t1, trace, flow, round);
      FailsWhenWritten(flow, round, b1, ok, finish);
      if !ok {
        return true;
      }
      ghost var t2 := trace;
      OverIsPolled(round.polled, relayMap, |round.polled|, relayMap.Keys + {finish});
      RemoveAll(removes);
      ReadsStay(t0, t2, trace, flow, round);
      NextFlowIs(flow, round, b1, relayBuffer);
      NowIs();
      last := IsFinished(round.polled, finish);
    }

    ghost function Now(): Flow
      reads this
    {
      Flow(relayMap, relayBuffer)
    }

    lemma NowIs()
      ensures Now() == Flow(relayMap, relayBuffer)
    {
    }

    lemma ValidConserves()
      requires Valid()
      ensures Conserves(relayBuffer, trace)
    {
    }

    /** The loop itself. */
    method Loop(rounds: seq<Round>) returns (turns: nat)
      requires Valid() && Prompt() && trace == Nothing
      modifies this
      ensures Valid() && Prompt() && TurnsTaken(old(Now()), rounds, finish, turns)
      ensures relayBuffer.Keys == old(relayBuffer).Keys
      ensures forall w :: w in relayBuffer ==> BytesIn(trace, w) == InputFor(old(Now()), rounds, w, turns)
      ensures turns == 0 || !Fails(FlowAfter(old(Now()), rounds, turns - 1), rounds[turns - 1]) ==>
        Now() == FlowAfter(old(Now()), rounds, turns)
    {
      hide *;
      ghost var flow := Now();
      NowIs();
      NoTurn(flow, rounds, finish, trace);
      var last := false;
      turns := 0;
      while turns < |rounds| && !last && relayMap != map[]
        invariant Valid() && Prompt() && turns <= |rounds| && relayBuffer.Keys == flow.buffer.Keys
        invariant GoneOn(flow, rounds, finish, turns, last)
        invariant turns == 0 || !Fails(FlowAfter(flow, rounds, turns - 1), rounds[turns - 1]) ==>
          Now() == FlowAfter(flow, rounds, turns)
        invariant !last ==> Now() == FlowAfter(flow, rounds, turns)
        invariant HasRead(trace, flow, rounds, turns)
      {
        NowIs();
        ghost var now, t0 := Now(), trace;
        var polled := Polled(rounds[turns].polled, relayMap.Keys + {finish});
        PolledAlike(now, rounds[turns], finish);
        last := Turn(rounds[turns].(polled := polled));
        OneMoreTurn(flow, rounds, finish, turns);
        OneMoreRead(t0, trace, flow, rounds, turns, rounds[turns].(polled := polled));
        OnlyLastFails(now, rounds[turns], finish);
        turns := turns + 1;
      }
      NowIs();
      WhatWasRead(trace, flow, rounds, turns);
      TurnsAreTaken(flow, rounds, finish, turns, last);
    }

    /**
     Any number of turns of runCopyStdioPassData, then what runCopyStdio does when it
     returns. It goes on up to the first turn that fails or in which we are told to finish, or
     until there is nothing left to relay. Whatever the world outside does, what the
     descriptors had in these turns is read, and each output gets what was read for it, in
     order, up to what is still buffered. The container's input is closed once, and not
     written to afterwards; in the loop, exactly if our input has ended and all of it was
     passed on.
     */
    method Run(rounds: seq<Round>) returns (turns: nat)
      requires Valid() && Prompt() && trace == Nothing
      modifies this
      ensures TurnsTaken(old(Now()), rounds, finish, turns)
      ensures relayBuffer.Keys == old(relayBuffer).Keys
      ensures forall w :: w in relayBuffer ==> BytesIn(trace, w) == InputFor(old(Now()), rounds, w, turns)
      ensures forall w :: w in relayBuffer ==> BytesIn(trace, w) == BytesOut(trace, w) + relayBuffer[w]
      ensures turns == 0 || !Fails(FlowAfter(old(Now()), rounds, turns - 1), rounds[turns - 1]) ==>
        Now() == FlowAfter(old(Now()), rounds, turns)
      ensures NoUseAfterClose(trace) && (copyPipes ==> Closes(trace, pipe) == 1 && ClosesWhenDone(trace, pipe))
      ensures copyPipes ==>
        (ClosedInLoop(trace, pipe) <==> HasEnded(trace, STDIN) && BytesIn(trace, pipe) == BytesOut(trace, pipe))
    {
      ghost var flow := Now();
      turns := Loop(rounds);
      ValidConserves();
      if copyPipes && stdinPipe >= 0 {
        FinallyClosed(trace, pipe, STDIN !in relayMap);
        ConservesOther(relayBuffer, trace, Closed(stdinPipe, false));
        trace := Then(trace, Closed(stdinPipe, false));
      }
    }
  }

  // ------------------------------------------------------------------------------------ many turns

  /** All turns but the last one, if that was one, were not the last, and there was something to relay in each. */
  ghost predicate GoneOn(f: Flow, rounds: seq<Round>, finish: Fd, n: nat, last: bool) {
    && n <= |rounds| && (last ==> n > 0)
    && forall k :: 0 <= k < n ==>
      && FlowAfter(f, rounds, k).relay != map[]
      && (IsLast(FlowAfter(f, rounds, k), rounds[k], finish) <==> last && k == n - 1)
  }

  /** So many turns are taken: up to the first that is the last, or until there is nothing left to relay. */
  ghost predicate TurnsTaken(f: Flow, rounds: seq<Round>, finish: Fd, n: nat) {
    && n <= |rounds|
    && (forall k :: 0 <= k < n ==> FlowAfter(f, rounds, k).relay != map[])
    && (forall k :: 0 <= k < n - 1 ==> !IsLast(FlowAfter(f, rounds, k), rounds[k], finish))
    && (n < |rounds| ==>
      || FlowAfter(f, rounds, n).relay == map[]
      || (n > 0 && IsLast(FlowAfter(f, rounds, n - 1), rounds[n - 1], finish)))
  }

  ghost predicate HasRead(t: Trace, f: Flow, rounds: seq<Round>, n: nat)
    requires n <= |rounds|
  {
    forall w :: w in f.buffer ==> BytesIn(t, w) == InputFor(f, rounds, w, n)
  }

  lemma NoTurn(f: Flow, rounds: seq<Round>, finish: Fd, t: Trace)
    requires t == Nothing
    ensures GoneOn(f, rounds, finish, 0, false) && FlowAfter(f, rounds, 0) == f && HasRead(t, f, rounds, 0)
  {
  }

  lemma WhatWasRead(t: Trace, f: Flow, rounds: seq<Round>, n: nat)
    requires n <= |rounds| && HasRead(t, f, rounds, n)
    ensures forall w :: w in f.buffer ==> BytesIn(t, w) == InputFor(f, rounds, w, n)
  {
    hide InputFor;
  }

  lemma OneMoreRead(t: Trace, t': Trace, f: Flow, rounds: seq<Round>, n: nat, round: Round)
    requires n < |rounds| && HasRead(t, f, rounds, n) && f.buffer.Keys == FlowAfter(f, rounds, n).buffer.Keys
    requires ReadsMore(t, t', FlowAfter(f, rounds, n), round)
    requires forall w :: Given(FlowAfter(f, rounds, n), round, w) == Given(FlowAfter(f, rounds, n), rounds[n], w)
    ensures HasRead(t', f, rounds, n + 1)
  {
    hide FlowAfter;
    hide Given;
  }

  lemma OnlyLastFails(f: Flow, round: Round, finish: Fd)
    ensures Fails(f, round) ==> IsLast(f, round, finish)
  {
  }

  lemma TurnsAreTaken(f: Flow, rounds: seq<Round>, finish: Fd, n: nat, last: bool)
    requires GoneOn(f, rounds, finish, n, last) && (n == |rounds| || last || FlowAfter(f, rounds, n).relay == map[])
    ensures TurnsTaken(f, rounds, finish, n)
  {
    hide FlowAfter;
    hide IsLast;
  }

  // One turn.

  lemma PollFailed(t: Trace, f: Flow, round: Round)
    requires round.pollFails
    ensures ReadsMore(t, t, f, round) && Fails(f, round) && forall finish :: IsLast(f, round, finish)
  {
    assert forall w :: w in f.buffer ==> BytesIn(t, w) == BytesIn(t, w) + "";
  }

  lemma FailsWhenRead(f: Flow, round: Round, finish: Fd)
    requires AnyFails(round.polled, f.relay, |round.polled|)
    ensures Fails(f, round) && IsLast(f, round, finish)
  {
  }

  lemma FailsWhenWritten(f: Flow, round: Round, b: map<Fd, string>, ok: bool, finish: Fd)
    requires !round.pollFails && !AnyFails(round.polled, f.relay, |round.polled|)
    requires AllTaken(f.buffer, b, round.polled, f.relay, |round.polled|)
    requires ok <==> forall w :: w in b && b[w] != "" ==> !round.writes(w).Broken?
    ensures Fails(f, round) <==> !ok
    ensures IsLast(f, round, finish) <==> !ok || IsFinished(round.polled, finish)
  {
    assert forall w :: w in b ==> b[w] == Full(f, round, w);
    hide Full;
    hide AnyFails;
    hide AllTaken;
  }

  lemma ReadsStay(t: Trace, t': Trace, t'': Trace, f: Flow, round: Round)
    requires ReadsMore(t, t', f, round) && ReadsAlike(t', t'')
    ensures ReadsMore(t, t'', f, round)
  {
    hide Given;
  }

  lemma NextFlowIs(f: Flow, round: Round, b: map<Fd, string>, b': map<Fd, string>)
    requires !round.pollFails && AllTaken(f.buffer, b, round.polled, f.relay, |round.polled|)
    requires AllWritten(b, b', round.writes, b'.Keys)
    ensures NextFlow(f, round).buffer == b'
    ensures NextFlow(f, round).relay == f.relay - Over(round.polled, f.relay, |round.polled|)
  {
    hide Left;
    hide Over;
    hide TakenFor;
    var next := NextFlow(f, round);
    forall w | w in f.buffer
      ensures w in b' && next.buffer[w] == b'[w]
    {
      assert b[w] == Full(f, round, w);
    }
    assert next.buffer.Keys == b'.Keys;
    hide AllTaken;
    hide AllWritten;
  }

  lemma OneMoreTurn(f: Flow, rounds: seq<Round>, finish: Fd, n: nat)
    requires n < |rounds| && GoneOn(f, rounds, finish, n, false) && FlowAfter(f, rounds, n).relay != map[]
    ensures GoneOn(f, rounds, finish, n + 1, IsLast(FlowAfter(f, rounds, n), rounds[n], finish))
    ensures FlowAfter(f, rounds, n + 1) == NextFlow(FlowAfter(f, rounds, n), rounds[n])
    ensures forall w ::
      InputFor(f, rounds, w, n + 1) == InputFor(f, rounds, w, n) + Given(FlowAfter(f, rounds, n), rounds[n], w)
  {
    hide NextFlow;
    hide IsLast;
    hide Given;
    var last, next := IsLast(FlowAfter(f, rounds, n), rounds[n], finish), n + 1;
    forall k | 0 <= k < next
      ensures FlowAfter(f, rounds, k).relay != map[]
      ensures IsLast(FlowAfter(f, rounds, k), rounds[k], finish) <==> last && k == next - 1
    {
    }
    hide FlowAfter;
    hide InputFor;
  }

  /** Nothing was written while what was read was buffered. */
  lemma ReadsAreGiven(t: Trace, t': Trace, b: map<Fd, string>, b': map<Fd, string>, f: Flow, round: Round)
    requires Conserves(b, t) && Conserves(b', t') && WritesAlike(t, t') && !round.pollFails && f.buffer == b
    requires AllTaken(b, b', round.polled, f.relay, |round.polled|)
    ensures ReadsMore(t, t', f, round)
  {
    forall w | w in b
      ensures BytesIn(t', w) == BytesIn(t, w) + Given(f, round, w)
    {
      Joins(BytesOut(t, w), b[w], Given(f, round, w));
    }
  }

  /** Only descriptors that were asked about are reported on. */
  function Polled(ps: seq<PollFd>, fds: set<Fd>): (r: seq<PollFd>)
    ensures forall k :: 0 <= k < |r| ==> r[k].fd in fds
  {
    if ps == [] then [] else Polled(ps[..|ps| - 1], fds) + if ps[|ps| - 1].fd in fds then [ps[|ps| - 1]] else []
  }

  // What is read, without the functions for it.

  function Concat(chunks: seq<ReadResult>): string
    requires forall j :: 0 <= j < |chunks| ==> chunks[j].Got?
  {
    if chunks == [] then "" else Concat(chunks[..|chunks| - 1]) + chunks[|chunks| - 1].bytes
  }

  /** The chunks up to n, all of them with data, and what stops the reading there, if anything does. */
  predicate HasData(chunks: seq<ReadResult>, n: nat) {
    && n <= |chunks| && (forall j :: 0 <= j < n ==> chunks[j].Got? && chunks[j].bytes != "")
    && (n < |chunks| ==> !chunks[n].Got? || chunks[n].bytes == "")
  }

  lemma {:induction false} RemainderIs(chunks: seq<ReadResult>, i: nat, n: nat)
    requires HasData(chunks, n) && i <= n
    ensures Concat(chunks[..i]) + Remainder(chunks, i) == Concat(chunks[..n])
    decreases n - i
  {
    if i < n {
      RemainderIs(chunks, i + 1, n);
      assert chunks[..i + 1][..i] == chunks[..i];
      Joins(Concat(chunks[..i]), chunks[i].bytes, Remainder(chunks, i + 1));
    }
  }

  /**
   From a descriptor that is ready, one chunk is read, and if the other end has hung up, all
   that there is, up to the end, an error or a would-block; from one that is not, nothing.
   */
  lemma TakenIs(p: PollFd, n: nat)
    requires HasData(p.chunks, n)
    ensures Taken(p) == if !p.ready then "" else Concat(p.chunks[..if p.hup || n == 0 then n else 1])
  {
    RemainderIs(p.chunks, 0, n);
    if n > 0 {
      assert p.chunks[..1][..0] == [];
      assert Concat(p.chunks[..1]) == "" + p.chunks[0].bytes;
    }
  }

  /** A descriptor is not read from again if the other end has hung up, it is not open, or our input is at its end. */
  lemma {:induction false} OverExactlyWhen(polled: seq<PollFd>, relay: map<Fd, Fd>, k: nat, fd: Fd)
    requires k <= |polled|
    ensures fd in Over(polled, relay, k) <==>
      exists j :: 0 <= j < k && polled[j].fd == fd
        && (polled[j].hup || polled[j].nval || (fd == STDIN && fd in relay && AtItsEnd(polled[j])))
  {
    if k > 0 {
      OverExactlyWhen(polled, relay, k - 1, fd);
    }
  }

  predicate AtItsEnd(p: PollFd) {
    p.ready && p.chunks != [] && p.chunks[0] == Got("")
  }

  /** The other side takes all that there is. */
  ghost predicate TakesAll(f: Flow, round: Round) {
    forall w :: w in f.buffer && Full(f, round, w) != "" ==>
      round.writes(w).Took? && round.writes(w).n >= |Full(f, round, w)|
  }

  lemma NothingIsLeftOnce(f: Flow, round: Round)
    requires TakesAll(f, round)
    ensures var next := NextFlow(f, round); forall w :: w in next.buffer ==> next.buffer[w] == ""
  {
    hide Full;
    hide Over;
  }

  /** If it does so in every turn, nothing is ever left: all that was read has been written. */
  lemma {:induction false} NothingIsLeft(f: Flow, rounds: seq<Round>, n: nat)
    requires n <= |rounds| && (forall w :: w in f.buffer ==> f.buffer[w] == "")
    requires forall k :: 0 <= k < n ==> TakesAll(FlowAfter(f, rounds, k), rounds[k])
    ensures forall w :: w in FlowAfter(f, rounds, n).buffer ==> FlowAfter(f, rounds, n).buffer[w] == ""
  {
    if n > 0 {
      NothingIsLeft(f, rounds, n - 1);
      NothingIsLeftOnce(FlowAfter(f, rounds, n - 1), rounds[n - 1]);
      hide NextFlow;
      hide TakesAll;
    }
  }

  // What is said of other descriptors makes no difference.

  lemma FailsIsPrefix(ps: seq<PollFd>, relay: map<Fd, Fd>, k: nat)
    requires k <= |ps|
    ensures AnyFails(ps[..k], relay, k) <==> AnyFails(ps, relay, k)
  {
  }

  lemma FailsAtLast(ps: seq<PollFd>, p: PollFd, relay: map<Fd, Fd>)
    ensures AnyFails(ps + [p], relay, |ps| + 1) <==> AnyFails(ps, relay, |ps|) || (p.fd in relay && ReadFails(p))
  {
    var qs := ps + [p];
    assert qs[|ps|] == p && forall j :: 0 <= j < |ps| ==> qs[j] == ps[j];
    if AnyFails(ps, relay, |ps|) {
      var j :| 0 <= j < |ps| && ps[j].fd in relay && ReadFails(ps[j]);
      assert qs[j] == ps[j];
    }
  }

  lemma FinishedAtLast(ps: seq<PollFd>, p: PollFd, finish: Fd)
    ensures IsFinished(ps + [p], finish) <==>
      IsFinished(ps, finish) || (p.fd == finish && (p.hup || p.nval || p.ready))
  {
    var qs := ps + [p];
    assert qs[|ps|] == p && forall j :: 0 <= j < |ps| ==> qs[j] == ps[j];
    if IsFinished(ps, finish) {
      var j :| 0 <= j < |ps| && ps[j].fd == finish && (ps[j].hup || ps[j].nval || ps[j].ready);
      assert qs[j] == ps[j];
    }
  }

  lemma {:induction false} PolledFails(ps: seq<PollFd>, fds: set<Fd>, relay: map<Fd, Fd>)
    requires relay.Keys <= fds
    ensures AnyFails(Polled(ps, fds), relay, |Polled(ps, fds)|) <==> AnyFails(ps, relay, |ps|)
  {
    if ps != [] {
      var before, p := ps[..|ps| - 1], ps[|ps| - 1];
      PolledFails(before, fds, relay);
      FailsAtLast(before, p, relay);
      FailsAtLast(Polled(before, fds), p, relay);
      assert ps == before + [p];
      assert Polled(ps, fds) == if p.fd in fds then Polled(before, fds) + [p] else Polled(before, fds);
      hide AnyFails;
    }
  }

  lemma {:induction false} TakenIsPrefix(ps: seq<PollFd>, qs: seq<PollFd>, relay: map<Fd, Fd>, w: Fd, k: nat)
    requires k <= |ps| && k <= |qs| && ps[..k] == qs[..k]
    ensures TakenFor(ps, relay, w, k) == TakenFor(qs, relay, w, k)
  {
    if k > 0 {
      assert ps[..k][k - 1] == qs[..k][k - 1];
      assert ps[..k - 1] == ps[..k][..k - 1] == qs[..k - 1];
      TakenIsPrefix(ps, qs, relay, w, k - 1);
      FailsIsPrefix(ps, relay, k);
      FailsIsPrefix(qs, relay, k);
    }
  }

  lemma {:induction false} PolledTaken(ps: seq<PollFd>, fds: set<Fd>, relay: map<Fd, Fd>, w: Fd)
    requires relay.Keys <= fds
    ensures TakenFor(Polled(ps, fds), relay, w, |Polled(ps, fds)|) == TakenFor(ps, relay, w, |ps|)
  {
    if ps != [] {
      var before, p := ps[..|ps| - 1], ps[|ps| - 1];
      var qs, rs := Polled(before, fds), Polled(ps, fds);
      PolledTaken(before, fds, relay, w);
      PolledFails(ps, fds, relay);
      TakenIsPrefix(ps, before, relay, w, |before|);
      TakenIsPrefix(rs, qs, relay, w, |qs|);
      hide AnyFails;
      hide Taken;
      if p.fd in fds {
        assert rs == qs + [p];
      } else {
        assert rs == qs;
        assert TakenFor(ps, relay, w, |ps|) == TakenFor(ps, relay, w, |before|) + "";
      }
    }
  }

  lemma {:induction false} OverIsPrefix(ps: seq<PollFd>, qs: seq<PollFd>, relay: map<Fd, Fd>, k: nat)
    requires k <= |ps| && k <= |qs| && ps[..k] == qs[..k]
    ensures Over(ps, relay, k) == Over(qs, relay, k)
  {
    if k > 0 {
      assert ps[..k][k - 1] == qs[..k][k - 1];
      assert ps[..k - 1] == ps[..k][..k - 1] == qs[..k - 1];
      OverIsPrefix(ps, qs, relay, k - 1);
    }
  }

  lemma {:induction false} PolledOver(ps: seq<PollFd>, fds: set<Fd>, relay: map<Fd, Fd>)
    requires relay.Keys <= fds
    ensures Over(Polled(ps, fds), relay, |Polled(ps, fds)|) == Over(ps, relay, |ps|) * fds
  {
    if ps != [] {
      var before := ps[..|ps| - 1];
      var qs, rs := Polled(before, fds), Polled(ps, fds);
      PolledOver(before, fds, relay);
      OverIsPrefix(ps, before, relay, |before|);
      OverIsPrefix(rs, qs, relay, |qs|);
      hide IsOver;
    }
  }

  lemma {:induction false} PolledFinish(ps: seq<PollFd>, fds: set<Fd>, finish: Fd)
    requires finish in fds
    ensures IsFinished(Polled(ps, fds), finish) <==> IsFinished(ps, finish)
  {
    if ps != [] {
      var before, p := ps[..|ps| - 1], ps[|ps| - 1];
      PolledFinish(before, fds, finish);
      FinishedAtLast(before, p, finish);
      FinishedAtLast(Polled(before, fds), p, finish);
      assert ps == before + [p];
      assert Polled(ps, fds) == if p.fd in fds then Polled(before, fds) + [p] else Polled(before, fds);
      hide IsFinished;
    }
  }

  lemma PolledAlike(f: Flow, round: Round, finish: Fd)
    ensures var round' := round.(polled := Polled(round.polled, f.relay.Keys + {finish}));
      && (forall w :: Given(f, round', w) == Given(f, round, w)) && (Fails(f, round') <==> Fails(f, round))
      && (IsLast(f, round', finish) <==> IsLast(f, round, finish)) && NextFlow(f, round') == NextFlow(f, round)
  {
    var fds := f.relay.Keys + {finish};
    var round' := round.(polled := Polled(round.polled, fds));
    forall w
      ensures Given(f, round', w) == Given(f, round, w)
    {
      PolledTaken(round.polled, fds, f.relay, w);
    }
    PolledFails(round.polled, fds, f.relay);
    PolledOver(round.polled, fds, f.relay);
    PolledFinish(round.polled, fds, finish);
    hide Given;
    hide AnyFails;
    hide Over;
    hide Polled;
    hide IsFinished;
    hide Left;
  }
}
