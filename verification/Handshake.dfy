/** The reply of a scheduled installation (`host_task.rs`): a worker and a client
    share a directory, and their steps interleave in any way. */
module Handshake {
  import opened Outcome
  import opened Utf8

  /** What a client reads at most. */
  const LIMIT: nat := 65536

  /** The names in the response directory. `result-pending` and the reply are two
      links to one file. */
  datatype Directory = Directory(present: bool, task: bool, pending: bool, reply: bool)

  /** Where `reply` stands: creating `result-pending`, writing it, linking the reply,
      removing `result-pending`. It may stop anywhere, by an error or a crash. */
  datatype Worker = Creating | Writing | Linking | Unlinking | Finished | Stopped

  datatype Problem = Oversized

  /** Where `await_result` and the clean-up of `schedule` stand. */
  datatype Client =
    | Polling
    | Checking
    | Reading(got: Bytes)
    | Cleaning(observed: Result<Bytes, Problem>, removed: nat)
    | Returned(observed: Result<Bytes, Problem>)
    | Failed

  /** `outcome` is the worker's serialised outcome; the file holds its first
      `written` bytes. */
  datatype State = State(outcome: Bytes, directory: Directory, written: nat, worker: Worker, client: Client)

  datatype Move = WorkerMoves | WorkerStops | ClientMoves

  function Start(outcome: Bytes): (s: State)
    ensures Fits(s)
  {
    State(outcome, Directory(true, true, false, false), 0, Creating, Polling)
  }

  function WorkerStep(s: State): State {
    var d := s.directory;
    match s.worker
    case Creating =>
      // create_new
      if d.present && !d.pending then s.(directory := d.(pending := true), worker := Writing)
      else s.(worker := Stopped)
    case Writing =>
      if s.written < |s.outcome| then s.(written := s.written + 1) else s.(worker := Linking)
    case Linking =>
      // a link never replaces a file
      if d.pending && !d.reply then s.(directory := d.(reply := true), worker := Unlinking)
      else s.(worker := Stopped)
    case Unlinking =>
      if d.pending then s.(directory := d.(pending := false), worker := Finished) else s.(worker := Stopped)
    case _ => s
  }

  function ClientStep(s: State): State
    requires s.written <= |s.outcome|
  {
    var d := s.directory;
    match s.client
    case Polling =>
      // opening the reply
      if d.reply then s.(client := Checking) else s
    case Checking =>
      if d.pending then s.(client := Polling) else s.(client := Reading([]))
    case Reading(got) =>
      if |got| < s.written && |got| <= LIMIT then s.(client := Reading(got + [s.outcome[|got|]]))
      else s.(client := Cleaning(if |got| > LIMIT then Err(Oversized) else Ok(got), 0))
    case Cleaning(observed, removed) =>
      if removed == 0 then
        // the reply is still there, and the task's definition goes first
        if d.reply && d.task then s.(directory := d.(task := false), client := Cleaning(observed, 1))
        else s.(client := Failed)
      else if removed == 1 then
        if d.reply then s.(directory := d.(reply := false), client := Cleaning(observed, 2)) else s.(client := Failed)
      else if d.present && !d.task && !d.pending && !d.reply then
        s.(directory := d.(present := false), client := Returned(observed))
      else s.(client := Failed)
    case _ => s
  }

  function Step(s: State, move: Move): State
    requires s.written <= |s.outcome|
  {
    match move
    case WorkerMoves => WorkerStep(s)
    case WorkerStops => if s.worker.Finished? then s else s.(worker := Stopped)
    case ClientMoves => ClientStep(s)
  }

  // ----- What holds throughout -----

  /** The client has seen the reply and no `result-pending`. */
  predicate Past(client: Client) {
    client.Reading? || client.Cleaning? || client.Returned?
  }

  predicate WorkerFits(s: State) {
    var d := s.directory;
    match s.worker
    case Creating => !d.pending && !d.reply && s.written == 0
    case Writing => d.pending && !d.reply
    case Linking => d.pending && !d.reply && s.written == |s.outcome|
    case Unlinking => d.pending && d.reply && s.written == |s.outcome|
    case Finished => !d.pending && s.written == |s.outcome|
    case Stopped => d.reply ==> d.pending
  }

  /** What the client may conclude from the whole outcome. */
  predicate Honest(observed: Result<Bytes, Problem>, outcome: Bytes) {
    observed == if |outcome| <= LIMIT then Ok(outcome) else Err(Oversized)
  }

  predicate ClientFits(s: State) {
    var d := s.directory;
    match s.client
    case Polling => d.present && d.task && (s.worker.Finished? ==> d.reply)
    case Checking => d.present && d.task && d.reply
    case Reading(got) =>
      d.present && d.task && d.reply && s.worker.Finished? && got <= s.outcome && |got| <= LIMIT + 1
    case Cleaning(observed, removed) =>
      && s.worker.Finished? && Honest(observed, s.outcome) && removed <= 2
      && d == Directory(true, removed < 1, false, removed < 2)
    case Returned(observed) =>
      s.worker.Finished? && Honest(observed, s.outcome) && d == Directory(false, false, false, false)
    case Failed => false
  }

  predicate Fits(s: State) {
    s.written <= |s.outcome| && WorkerFits(s) && ClientFits(s)
  }

  lemma StepFits(s: State, move: Move)
    requires Fits(s)
    ensures Fits(Step(s, move)) && Step(s, move).outcome == s.outcome
    ensures Past(s.client) ==> Past(Step(s, move).client)
  {
    hide ClientStep, WorkerStep;
    match move
    case WorkerMoves => WorkerStepFits(s);
    case WorkerStops =>
    case ClientMoves => ClientStepFits(s);
  }

  lemma WorkerStepFits(s: State)
    requires Fits(s)
    ensures Fits(WorkerStep(s)) && WorkerStep(s).outcome == s.outcome && WorkerStep(s).client == s.client
  {
    hide Honest;
  }

  lemma ClientStepFits(s: State)
    requires Fits(s)
    ensures Fits(ClientStep(s)) && ClientStep(s).outcome == s.outcome
    ensures Past(s.client) ==> Past(ClientStep(s).client)
  {
    match s.client
    case Reading(got) =>
      assert |got| < |s.outcome| ==> got + [s.outcome[|got|]] <= s.outcome;
      assert |got| == |s.outcome| ==> got == s.outcome;
    case _ =>
  }

  /** Where the two stand after some moves, from a state that fits. */
  function After(s: State, moves: seq<Move>): (r: State)
    requires Fits(s)
    ensures Fits(r) && r.outcome == s.outcome
    ensures Past(s.client) ==> Past(r.client)
    decreases |moves|
  {
    if moves == [] then s
    else
      StepFits(s, moves[0]);
      After(Step(s, moves[0]), moves[1..])
  }

  // ----- The promises -----

  /** Whatever the interleaving, a client that got past the check has seen the last
      of `result-pending`: the worker is done, and no later move brings it back. */
  lemma PendingIsGoneForGood(outcome: Bytes, moves: seq<Move>, later: seq<Move>)
    requires Past(After(Start(outcome), moves).client)
    ensures
      var s := After(After(Start(outcome), moves), later);
      !s.directory.pending && s.worker.Finished? && s.written == |outcome|
  {
    var s := After(After(Start(outcome), moves), later);
    assert Past(s.client) && Fits(s);
  }

  /** A client that accepts a response has the worker's complete outcome, and an
      outcome is refused only for its size. */
  lemma AcceptedIsComplete(outcome: Bytes, moves: seq<Move>)
    ensures
      var c := After(Start(outcome), moves).client;
      c.Cleaning? || c.Returned? ==> Honest(c.observed, outcome)
  {
    assert Fits(After(Start(outcome), moves));
  }

  /** While the client cleans up, the directory holds the task definition and the
      reply less what was removed, and no step of the clean-up fails. */
  lemma CleanupSucceeds(outcome: Bytes, moves: seq<Move>)
    ensures
      var s := After(Start(outcome), moves);
      && !s.client.Failed?
      && (s.client.Cleaning? && s.client.removed == 0 ==> s.directory == Directory(true, true, false, true))
      && (s.client.Returned? ==> !s.directory.present)
  {
    assert Fits(After(Start(outcome), moves));
  }

  /** A worker that stops before it is done is never believed. */
  lemma StoppedIsNeverAccepted(outcome: Bytes, moves: seq<Move>, later: seq<Move>)
    requires After(Start(outcome), moves).worker == Stopped
    ensures !Past(After(After(Start(outcome), moves), later).client)
  {
    StaysStopped(After(Start(outcome), moves), later);
  }

  lemma {:induction false} StaysStopped(s: State, later: seq<Move>)
    requires Fits(s) && s.worker == Stopped
    ensures After(s, later).worker == Stopped && !Past(After(s, later).client)
    decreases |later|
  {
    if later != [] {
      StepFits(s, later[0]);
      StaysStopped(Step(s, later[0]), later[1..]);
    }
  }

  /** Client moves left until it returns. */
  function Left(s: State): nat
    requires Fits(s) && s.worker.Finished?
  {
    var bytes := Min(|s.outcome|, LIMIT + 1);
    match s.client
    case Polling => bytes + 6
    case Checking => bytes + 5
    case Reading(got) => bytes - |got| + 4
    case Cleaning(_, removed) => 3 - removed
    case _ => 0
  }

  function Repeat(n: nat): (moves: seq<Move>)
    ensures |moves| == n
  {
    if n == 0 then [] else [ClientMoves] + Repeat(n - 1)
  }

  /** Once the worker is done, so many moves of the client alone bring it home. */
  lemma {:induction false} ClientReturns(s: State, n: nat)
    requires Fits(s) && s.worker.Finished? && n >= Left(s)
    ensures
      var end := After(s, Repeat(n));
      end.client.Returned? && Honest(end.client.observed, s.outcome)
    decreases n
  {
    if n > 0 {
      var next := Step(s, ClientMoves);
      StepFits(s, ClientMoves);
      assert Left(next) <= n - 1;
      ClientReturns(next, n - 1);
      assert Repeat(n)[1..] == Repeat(n - 1);
    }
  }
}
