/**
 * Pending requests: each call of the user suspends on a yield, the nodes' answer resumes it, or it times out.
 * The contract remembers one yield per request; the runtime remembers every yield.
 */
module PendingRequests {
  import opened Wrappers

  /** The data id of a yield. */
  type DataId = nat

  datatype Reply = Resume(id: DataId) | Rejected

  function Answered<Req(==), Resp>(pending: map<Req, DataId>, request: Req, response: Resp, permitted: bool,
        verified: (Req, Resp) -> bool)
    : (map<Req, DataId>, Reply)
  {
    if permitted && verified(request, response) && request in pending
        then (pending - {request}, Resume(pending[request]))
    else (pending, Rejected)
  }

  // ----- The contract and the runtime together -----

  /** A yield; `Expired` waits for its callback to run. */
  datatype Yield<Req, Resp> =
    | Waiting(request: Req)
    | Resumed(request: Req, response: Resp)
    | Expired(request: Req)
    | Failed(request: Req)

  datatype System<Req, Resp> = System(pending: map<Req, DataId>, suspended: map<DataId, Yield<Req, Resp>>)

  datatype Step<Req, Resp> =
    | Request(request: Req, id: DataId)
    | Respond(request: Req, response: Resp, permitted: bool)
    | Expire(id: DataId)
    | Callback(id: DataId)

  /** The runtime gives every yield a new data id. */
  ghost predicate Enabled<Req, Resp>(s: System<Req, Resp>, step: Step<Req, Resp>) {
    match step
    case Request(_, id) => id !in s.suspended
    case Respond(_, _, _) => true
    case Expire(id) => id in s.suspended && s.suspended[id].Waiting?
    case Callback(id) => id in s.suspended && s.suspended[id].Expired?
  }

  /** Resuming a yield that no longer waits has no effect. */
  ghost function ResumeYield<Req, Resp>(suspended: map<DataId, Yield<Req, Resp>>, id: DataId,
        response: Resp): map<DataId, Yield<Req, Resp>> {
    if id in suspended && suspended[id].Waiting? then suspended[id := Resumed(suspended[id].request, response)]
        else suspended
  }

  ghost function Next<Req, Resp>(s: System<Req, Resp>, step: Step<Req, Resp>,
        verified: (Req, Resp) -> bool): System<Req, Resp>
    requires Enabled(s, step)
  {
    match step
    case Request(request, id) => System(s.pending[request := id], s.suspended[id := Waiting(request)])
    case Respond(request, response, permitted) =>
      var (pending, r) := Answered(s.pending, request, response, permitted, verified);
      System(pending, if r.Resume? then ResumeYield(s.suspended, r.id, response) else s.suspended)
    case Expire(id) => s.(suspended := s.suspended[id := Expired(s.suspended[id].request)])
    case Callback(id) =>
      var request := s.suspended[id].request;
      System(s.pending - {request}, s.suspended[id := Failed(request)])
  }

  datatype Event<Req, Resp> =
    | Created(request: Req, id: DataId)
    | ResumedWith(request: Req, id: DataId, response: Resp)
    | Closed(request: Req)

  ghost function Events<Req, Resp>(s: System<Req, Resp>, step: Step<Req, Resp>,
        verified: (Req, Resp) -> bool): seq<Event<Req, Resp>>
    requires Enabled(s, step)
  {
    match step
    case Request(request, id) => [Created(request, id)]
    case Respond(request, response, permitted) =>
      var r := Answered(s.pending, request, response, permitted, verified).1;
      if r.Rejected? then []
      else if r.id in s.suspended && s.suspended[r.id].Waiting?
          then [Closed(request), ResumedWith(s.suspended[r.id].request, r.id, response)]
      else [Closed(request)]
    case Expire(_) => []
    case Callback(id) => [Closed(s.suspended[id].request)]
  }

  /** The newest yield created for a request, unless the request was closed since. */
  ghost function Open<Req, Resp>(log: seq<Event<Req, Resp>>, r: Req): Option<DataId> {
    if log == [] then None else
      var e, before := log[|log| - 1], log[..|log| - 1];
      if e.request != r || e.ResumedWith? then Open(before, r)
      else if e.Created? then Some(e.id) else None
  }

  /** `id` was created for `r` and no yield was created for `r` after it. */
  ghost predicate Newest<Req, Resp>(log: seq<Event<Req, Resp>>, r: Req, id: DataId) {
    exists i :: 0 <= i < |log| && log[i] == Created(r, id)
                && forall j :: i < j < |log| ==> !(log[j].Created? && log[j].request == r)
  }

  lemma CreatedIsNewest<Req, Resp>(log: seq<Event<Req, Resp>>, r: Req, id: DataId)
    ensures Newest(log + [Created(r, id)], r, id)
  {
    assert (log + [Created(r, id)])[|log|] == Created(r, id);
  }

  lemma StaysNewest<Req, Resp>(log: seq<Event<Req, Resp>>, e: Event<Req, Resp>, r: Req, id: DataId)
    requires Newest(log, r, id) && !(e.Created? && e.request == r)
    ensures Newest(log + [e], r, id)
  {
    var i :| 0 <= i < |log| && log[i] == Created(r, id)
             && forall j :: i < j < |log| ==> !(log[j].Created? && log[j].request == r);
    assert (log + [e])[i] == Created(r, id);
    assert forall j :: i < j < |log| ==> (log + [e])[j] == log[j];
  }

  lemma {:induction false} OpenIsNewest<Req, Resp>(log: seq<Event<Req, Resp>>, r: Req)
    ensures Open(log, r).Some? ==> Newest(log, r, Open(log, r).value)
  {
    if log != [] && Open(log, r).Some? {
      var last, before, id := log[|log| - 1], log[..|log| - 1], Open(log, r).value;
      assert log == before + [last];
      if last.request == r && last.Created? {
        CreatedIsNewest(before, r, id);
      } else {
        OpenIsNewest(before, r);
        StaysNewest(before, last, r, id);
      }
    }
  }

  /** Exactly the open yields are pending. */
  ghost predicate PendingIsOpen<Req(!new), Resp>(s: System<Req, Resp>, log: seq<Event<Req, Resp>>) {
    forall r :: Open(log, r) == if r in s.pending then Some(s.pending[r]) else None
  }

  /** Every yield is created once, for the request it belongs to; a pending one is not resumed yet. */
  ghost predicate CreatedOnce<Req, Resp>(s: System<Req, Resp>, log: seq<Event<Req, Resp>>) {
    && (forall i :: 0 <= i < |log| && log[i].Created? ==>
       log[i].id in s.suspended && s.suspended[log[i].id].request == log[i].request)
    && (forall i, j :: 0 <= i < j < |log| && log[i].Created? && log[j].Created? ==> log[i].id != log[j].id)
    && (forall r :: r in s.pending ==> s.pending[r] in s.suspended
                                       && s.suspended[s.pending[r]].request == r && !s.suspended[s.pending[r]].Resumed?)
  }

  /** The yield created at `j` takes the place of the one created at `i`. */
  ghost predicate Overrides<Req, Resp>(log: seq<Event<Req, Resp>>, i: int, j: int)
    requires 0 <= i < j < |log|
  {
    log[i].Created? && log[j].Created? && log[i].request == log[j].request
  }

  /** Every yield is resumed at most once, by a verified response to its own request, and never once overridden. */
  ghost predicate ResumedOnce<Req, Resp>(s: System<Req, Resp>, log: seq<Event<Req, Resp>>,
        verified: (Req, Resp) -> bool) {
    && (forall i :: 0 <= i < |log| && log[i].ResumedWith? ==>
                      && log[i].id in s.suspended
                      && s.suspended[log[i].id] == Resumed(log[i].request, log[i].response)
                      && verified(log[i].request, log[i].response))
    && (forall id :: id in s.suspended && s.suspended[id].Resumed? ==>
       ResumedWith(s.suspended[id].request, id, s.suspended[id].response) in log)
    && (forall i, j :: 0 <= i < j < |log| && log[i].ResumedWith? && log[j].ResumedWith? ==> log[i].id != log[j].id)
    && (forall i, j, k :: 0 <= i < j < k < |log| && Overrides(log, i, j) && log[k].ResumedWith? ==>
       log[k].id != log[i].id)
  }

  /** Pending yields exist and belong to their requests. */
  ghost predicate Linked<Req, Resp>(s: System<Req, Resp>) {
    forall r :: r in s.pending ==> s.pending[r] in s.suspended && s.suspended[s.pending[r]].request == r
  }

  ghost predicate Explained<Req(!new), Resp>(s: System<Req, Resp>, log: seq<Event<Req, Resp>>,
        verified: (Req, Resp) -> bool) {
    PendingIsOpen(s, log) && CreatedOnce(s, log) && ResumedOnce(s, log, verified)
  }

  lemma OpenAfterOne<Req, Resp>(log: seq<Event<Req, Resp>>, e: Event<Req, Resp>, r: Req)
    ensures Open(log + [e], r) == if e.request != r || e.ResumedWith? then Open(log, r)
            else if e.Created? then Some(e.id) else None
  {}

  lemma OverridesBefore<Req, Resp>(log: seq<Event<Req, Resp>>, e: Event<Req, Resp>)
    ensures forall i, j :: 0 <= i < j < |log| ==> Overrides(log + [e], i, j) == Overrides(log, i, j)
  {}

  lemma RequestExplained<Req(!new), Resp>(s: System<Req, Resp>, log: seq<Event<Req, Resp>>,
        verified: (Req, Resp) -> bool, request: Req, id: DataId)
    requires Explained(s, log, verified) && id !in s.suspended
    ensures Explained(System(s.pending[request := id], s.suspended[id := Waiting(request)]),
                      log + [Created(request, id)], verified)
  {
    forall r ensures Open(log + [Created(request, id)], r) == if r == request then Some(id) else Open(log, r) {
      OpenAfterOne(log, Created(request, id), r);
    }
    OverridesBefore(log, Created(request, id));
  }

  /** Removing a request from the table, while its yield may change to one that was not resumed. */
  lemma CloseExplained<Req(!new), Resp>(s: System<Req, Resp>, log: seq<Event<Req, Resp>>,
        verified: (Req, Resp) -> bool, request: Req)
    requires Explained(s, log, verified)
    ensures Explained(s.(pending := s.pending - {request}), log + [Closed(request)], verified)
  {
    forall r ensures Open(log + [Closed(request)], r) == if r == request then None else Open(log, r) {
      OpenAfterOne(log, Closed(request), r);
    }
    OverridesBefore(log, Closed(request));
  }

  /** A yield that was not resumed changes to another such state. */
  lemma MarkExplained<Req(!new), Resp>(s: System<Req, Resp>, log: seq<Event<Req, Resp>>, verified: (Req, Resp) -> bool,
        id: DataId, y: Yield<Req, Resp>)
    requires Explained(s, log, verified)
    requires id in s.suspended && !s.suspended[id].Resumed? && !y.Resumed? && y.request == s.suspended[id].request
    ensures Explained(s.(suspended := s.suspended[id := y]), log, verified)
  {}

  /** No yield for the request follows the pending one. */
  lemma PendingIsNotOverridden<Req(!new), Resp>(s: System<Req, Resp>, log: seq<Event<Req, Resp>>,
        verified: (Req, Resp) -> bool, request: Req, i: int, j: int)
    requires Explained(s, log, verified) && request in s.pending
    requires 0 <= i < j < |log| && Overrides(log, i, j)
    ensures s.pending[request] != log[i].id
  {
    OpenIsNewest(log, request);
  }

  lemma ResumeExplained<Req(!new), Resp>(s: System<Req, Resp>, log: seq<Event<Req, Resp>>,
        verified: (Req, Resp) -> bool, request: Req, id: DataId, response: Resp)
    requires Explained(s, log, verified) && verified(request, response)
    requires id in s.suspended && s.suspended[id] == Waiting(request) && request !in s.pending
    requires forall i, j :: 0 <= i < j < |log| && Overrides(log, i, j) ==> log[i].id != id
    ensures Explained(s.(suspended := s.suspended[id := Resumed(request, response)]),
                      log + [ResumedWith(request, id, response)], verified)
  {
    var e := ResumedWith(request, id, response);
    forall r ensures Open(log + [e], r) == Open(log, r) {
      OpenAfterOne(log, e, r);
    }
    OverridesBefore(log, e);
  }

  lemma RespondExplained<Req(!new), Resp>(s: System<Req, Resp>, log: seq<Event<Req, Resp>>,
        verified: (Req, Resp) -> bool, request: Req, response: Resp)
    requires Explained(s, log, verified) && request in s.pending && verified(request, response)
    requires s.suspended[s.pending[request]].Waiting?
    ensures var id := s.pending[request];
            Explained(System(s.pending - {request}, s.suspended[id := Resumed(request, response)]),
                      log + [Closed(request), ResumedWith(request, id, response)], verified)
  {
    var id, log' := s.pending[request], log + [Closed(request)];
    CloseExplained(s, log, verified, request);
    forall i, j | 0 <= i < j < |log'| && Overrides(log', i, j) ensures log'[i].id != id {
      assert Overrides(log, i, j);
      PendingIsNotOverridden(s, log, verified, request, i, j);
    }
    ResumeExplained(s.(pending := s.pending - {request}), log', verified, request, id, response);
    assert log' + [ResumedWith(request, id, response)] == log + [Closed(request), ResumedWith(request, id, response)];
  }

  lemma StepExplained<Req(!new), Resp>(s: System<Req, Resp>, log: seq<Event<Req, Resp>>, verified: (Req, Resp) -> bool,
        step: Step<Req, Resp>)
    requires Explained(s, log, verified) && Enabled(s, step)
    ensures Explained(Next(s, step, verified), log + Events(s, step, verified), verified)
  {
    match step {
      case Request(request, id) => RequestExplained(s, log, verified, request, id);
      case Respond(request, response, permitted) =>
        if !permitted || !verified(request, response) || request !in s.pending {
          assert log + [] == log;
        } else if s.suspended[s.pending[request]].Waiting? {
          RespondExplained(s, log, verified, request, response);
        } else {
          CloseExplained(s, log, verified, request);
        }
      case Expire(id) =>
        MarkExplained(s, log, verified, id, Expired(s.suspended[id].request));
        assert log + [] == log;
      case Callback(id) =>
        var request := s.suspended[id].request;
        MarkExplained(s, log, verified, id, Failed(request));
        CloseExplained(s.(suspended := s.suspended[id := Failed(request)]), log, verified, request);
    }
  }

  // ----- Whole runs -----

  ghost predicate IsRun<Req, Resp>(s: System<Req, Resp>, steps: seq<Step<Req, Resp>>, verified: (Req, Resp) -> bool)
    decreases |steps|
  {
    steps == [] || (Enabled(s, steps[0]) && IsRun(Next(s, steps[0], verified), steps[1..], verified))
  }

  ghost function After<Req, Resp>(s: System<Req, Resp>, steps: seq<Step<Req, Resp>>,
        verified: (Req, Resp) -> bool): System<Req, Resp>
    requires IsRun(s, steps, verified)
    decreases |steps|
  {
    if steps == [] then s else After(Next(s, steps[0], verified), steps[1..], verified)
  }

  ghost function Log<Req, Resp>(s: System<Req, Resp>, steps: seq<Step<Req, Resp>>,
        verified: (Req, Resp) -> bool): seq<Event<Req, Resp>>
    requires IsRun(s, steps, verified)
    decreases |steps|
  {
    if steps == [] then [] else Events(s, steps[0], verified) + Log(Next(s, steps[0], verified), steps[1..], verified)
  }

  lemma {:induction false} RunExplained<Req(!new), Resp>(s: System<Req, Resp>, log: seq<Event<Req, Resp>>,
        steps: seq<Step<Req, Resp>>, verified: (Req, Resp) -> bool, log': seq<Event<Req, Resp>>)
    requires Explained(s, log, verified) && IsRun(s, steps, verified) && log' == log + Log(s, steps, verified)
    ensures Explained(After(s, steps, verified), log', verified)
    decreases |steps|
  {
    if steps == [] {
      assert log' == log;
    } else {
      var next, events := Next(s, steps[0], verified), Events(s, steps[0], verified);
      StepExplained(s, log, verified, steps[0]);
      assert log' == log + events + Log(next, steps[1..], verified);
      RunExplained(next, log + events, steps[1..], verified, log');
    }
  }

  /**
   * Over every run from the empty contract: a request is pending exactly with the newest yield created for it since it
   * was last closed; each yield is resumed at most once, by a verified response to its own request, never once
   * overridden.
   */
  lemma AlwaysExplained<Req(!new), Resp>(steps: seq<Step<Req, Resp>>, verified: (Req, Resp) -> bool)
    requires IsRun(System(map[], map[]), steps, verified)
    ensures var s := After(System(map[], map[]), steps, verified);
            var log := Log(System(map[], map[]), steps, verified);
            && Explained(s, log, verified) && Linked(s)
            && forall r :: r in s.pending ==> Newest(log, r, s.pending[r])
  {
    var s := After(System(map[], map[]), steps, verified);
    var log := Log(System(map[], map[]), steps, verified);
    assert log == [] + log;
    RunExplained(System(map[], map[]), [], steps, verified, log);
    forall r | r in s.pending ensures Newest(log, r, s.pending[r]) {
      OpenIsNewest(log, r);
    }
  }

  // ----- Which yields can still be resumed -----

  /** The yield is the pending one of its request. */
  ghost predicate Reachable<Req, Resp>(s: System<Req, Resp>, id: DataId)
    requires id in s.suspended
  {
    var r := s.suspended[id].request;
    r in s.pending && s.pending[r] == id
  }

  ghost predicate Unresumed<Req, Resp>(s: System<Req, Resp>, id: DataId) {
    id in s.suspended && !s.suspended[id].Resumed?
  }

  /** A waiting yield that is no longer pending is never resumed, whatever happens. */
  lemma {:induction false} UnreachableStaysUnresumed<Req, Resp>(s: System<Req, Resp>, steps: seq<Step<Req, Resp>>,
        verified: (Req, Resp) -> bool, id: DataId)
    requires Linked(s) && IsRun(s, steps, verified)
    requires Unresumed(s, id) && !Reachable(s, id)
    ensures var s' := After(s, steps, verified);
            Unresumed(s', id) && !Reachable(s', id)
    decreases |steps|
  {
    if steps != [] {
      UnreachableStaysUnresumed(Next(s, steps[0], verified), steps[1..], verified, id);
    }
  }

  ghost predicate Resumes<Req, Resp>(s: System<Req, Resp>, steps: seq<Step<Req, Resp>>, verified: (Req, Resp) -> bool,
        id: DataId) {
    IsRun(s, steps, verified) && !Unresumed(After(s, steps, verified), id)
  }

  /** A waiting yield whose request has an acceptable response can still be resumed exactly if it is the pending one. */
  lemma ResumableIff<Req(!new), Resp(!new)>(s: System<Req, Resp>, verified: (Req, Resp) -> bool, id: DataId,
        response: Resp)
    requires Linked(s) && id in s.suspended && s.suspended[id].Waiting? && verified(s.suspended[id].request, response)
    ensures Reachable(s, id) <==> exists steps: seq<Step<Req, Resp>> :: Resumes(s, steps, verified, id)
  {
    if Reachable(s, id) {
      var step := Respond(s.suspended[id].request, response, true);
      var next := Next(s, step, verified);
      assert [step][1..] == [] && IsRun(next, [], verified) && After(next, [], verified) == next;
      assert Resumes(s, [step], verified, id);
    } else {
      forall steps: seq<Step<Req, Resp>> ensures !Resumes(s, steps, verified, id) {
        if IsRun(s, steps, verified) { UnreachableStaysUnresumed(s, steps, verified, id); }
      }
    }
  }

  // ----- When a new request is safe -----

  /** A yield of the request that still waits, or whose timeout callback is still to run. */
  ghost predicate Unfinished<Req, Resp>(s: System<Req, Resp>, r: Req, id: DataId) {
    id in s.suspended && s.suspended[id].request == r && (s.suspended[id].Waiting? || s.suspended[id].Expired?)
  }

  ghost predicate NoRequest<Req, Resp>(steps: seq<Step<Req, Resp>>, r: Req) {
    forall i :: 0 <= i < |steps| && steps[i].Request? ==> steps[i].request != r
  }

  /** As long as the yield waits it is the pending one, and no other yield of its request is unfinished. */
  ghost predicate OnlyOne<Req, Resp>(s: System<Req, Resp>, r: Req, id: DataId) {
    && id in s.suspended && s.suspended[id].request == r
    && (s.suspended[id].Waiting? ==> Reachable(s, id))
    && (forall d :: Unfinished(s, r, d) ==> d == id)
  }

  lemma OnlyOneStep<Req, Resp>(s: System<Req, Resp>, step: Step<Req, Resp>, verified: (Req, Resp) -> bool, r: Req,
        id: DataId)
    requires Linked(s) && Enabled(s, step) && OnlyOne(s, r, id) && (step.Request? ==> step.request != r)
    ensures Linked(Next(s, step, verified)) && OnlyOne(Next(s, step, verified), r, id)
  {
    var s' := Next(s, step, verified);
    forall d | Unfinished(s', r, d) ensures Unfinished(s, r, d) {}
    if step.Callback? && s.suspended[step.id].request == r {
      assert Unfinished(s, r, step.id);
    }
  }

  lemma {:induction false} OnlyOneStays<Req, Resp>(s: System<Req, Resp>, steps: seq<Step<Req, Resp>>,
        verified: (Req, Resp) -> bool, r: Req, id: DataId)
    requires Linked(s) && IsRun(s, steps, verified) && NoRequest(steps, r) && OnlyOne(s, r, id)
    ensures OnlyOne(After(s, steps, verified), r, id)
    decreases |steps|
  {
    if steps != [] {
      OnlyOneStep(s, steps[0], verified, r, id);
      OnlyOneStays(Next(s, steps[0], verified), steps[1..], verified, r, id);
    }
  }

  /** The continuation in which the old yield `d` times out and takes the request of the newer one with it. */
  ghost function TimesOut<Req, Resp>(s: System<Req, Resp>, d: DataId): seq<Step<Req, Resp>>
    requires d in s.suspended
  {
    if s.suspended[d].Waiting? then [Expire(d), Callback(d)] else [Callback(d)]
  }

  lemma OldTimeoutOrphans<Req, Resp>(s: System<Req, Resp>, verified: (Req, Resp) -> bool, r: Req, d: DataId, id: DataId)
    requires Unfinished(s, r, d) && d != id && id in s.suspended && s.suspended[id] == Waiting(r)
    ensures IsRun(s, TimesOut(s, d), verified) && NoRequest(TimesOut(s, d), r)
    ensures var s' := After(s, TimesOut(s, d), verified);
            id in s'.suspended && s'.suspended[id] == Waiting(r) && !Reachable(s', id)
  {
    var s1 := if s.suspended[d].Waiting? then Next(s, Expire(d), verified) else s;
    var s2 := Next(s1, Callback(d), verified);
    var last: seq<Step<Req, Resp>> := [Callback(d)];
    assert last[1..] == [] && IsRun(s2, [], verified) && IsRun(s1, last, verified) && After(s1, last, verified) == s2;
    if s.suspended[d].Waiting? {
      assert TimesOut(s, d)[1..] == last;
    }
  }

  /** Whatever happens short of another such request, the yield is the pending one for as long as it waits. */
  ghost predicate StaysReachable<Req(!new), Resp(!new)>(s: System<Req, Resp>, verified: (Req, Resp) -> bool, r: Req,
        id: DataId)
    requires id in s.suspended
  {
    forall steps: seq<Step<Req, Resp>> :: IsRun(s, steps, verified) && NoRequest(steps, r) ==>
                                            WaitsReachably(After(s, steps, verified), id)
  }

  ghost predicate WaitsReachably<Req, Resp>(s: System<Req, Resp>, id: DataId) {
    id in s.suspended && (s.suspended[id].Waiting? ==> Reachable(s, id))
  }

  /**
   * A new request is safe exactly when no earlier yield of the same request is unfinished: then nothing but its own
   * timeout or another such request can keep it from being resumed; otherwise an old timeout can orphan it.
   */
  lemma SafeRequestIff<Req(!new), Resp(!new)>(s: System<Req, Resp>, verified: (Req, Resp) -> bool, r: Req, id: DataId)
    requires Linked(s) && id !in s.suspended
    ensures StaysReachable(Next(s, Request(r, id), verified), verified, r, id) <==> forall d :: !Unfinished(s, r, d)
  {
    var s1 := Next(s, Request(r, id), verified);
    if d :| Unfinished(s, r, d) {
      assert Unfinished(s1, r, d);
      OldTimeoutOrphans(s1, verified, r, d, id);
      assert !WaitsReachably(After(s1, TimesOut(s1, d), verified), id);
    } else {
      assert OnlyOne(s1, r, id) by {
        forall d | Unfinished(s1, r, d) ensures d == id { assert d != id ==> Unfinished(s, r, d); }
      }
      forall steps: seq<Step<Req, Resp>> | IsRun(s1, steps, verified) && NoRequest(steps, r)
        ensures WaitsReachably(After(s1, steps, verified), id)
      {
        OnlyOneStays(s1, steps, verified, r, id);
      }
    }
  }

  /** The timeout of an overridden yield removes the request of the newer one, which then only times out. */
  lemma OldTimeoutOrphansNewerYield<Req(!new), Resp>(request: Req, steps: seq<Step<Req, Resp>>,
        verified: (Req, Resp) -> bool)
    ensures var start := [Request(request, 0), Request(request, 1), Expire(0), Callback(0)];
            && IsRun(System(map[], map[]), start, verified)
            && var s := After(System(map[], map[]), start, verified);
               && 1 in s.suspended && s.suspended[1] == Waiting(request)
               && (IsRun(s, steps, verified) ==> Unresumed(After(s, steps, verified), 1))
  {
    var s0: System<Req, Resp> := System(map[], map[]);
    var s1 := Next(s0, Request(request, 0), verified);
    var s2 := Next(s1, Request(request, 1), verified);
    var s3 := Next(s2, Expire(0), verified);
    var s4 := Next(s3, Callback(0), verified);
    var start := [Request(request, 0), Request(request, 1), Expire(0), Callback(0)];
    assert start[1..][1..] == [Expire(0), Callback(0)] && start[1..][1..][1..] == [Callback(0)];
    assert start[1..][1..][1..][1..] == [];
    assert IsRun(s3, [Callback(0)], verified) && After(s3, [Callback(0)], verified) == s4;
    assert IsRun(s2, start[1..][1..], verified) && After(s2, start[1..][1..], verified) == s4;
    if IsRun(s4, steps, verified) {
      UnreachableStaysUnresumed(s4, steps, verified, 1);
    }
  }

  // ----- The contract's table -----

  /**
   * The contract holds `pending`; `suspended` are the runtime's yields and `log` what happened so far. Every call is
   * one step of the system and keeps it explained by the log.
   */
  class PendingRequests<Req(==,!new), Resp> {
    var pending: map<Req, DataId>
    ghost var suspended: map<DataId, Yield<Req, Resp>>
    ghost var log: seq<Event<Req, Resp>>
    /** The signature check. */
    const verified: (Req, Resp) -> bool

    ghost function View(): System<Req, Resp>
      reads this
    {
      System(pending, suspended)
    }

    ghost predicate Valid()
      reads this
    {
      Explained(View(), log, verified)
    }

    constructor (verified: (Req, Resp) -> bool)
      ensures Valid() && View() == System(map[], map[]) && this.verified == verified
    {
      pending, suspended, log, this.verified := map[], map[], [], verified;
    }

    /** The runtime gives the call a new yield, which overrides the one the request had, if any was still open. */
    method AddRequest(request: Req, id: DataId) returns (wasPending: bool)
      requires Valid() && id !in suspended
      modifies this
      ensures Valid() && View() == Next(old(View()), Step.Request(request, id), verified)
      ensures wasPending <==> Open(old(log), request).Some?
      ensures Open(log, request) == Some(id) && Newest(log, request, id)
    {
      StepExplained(View(), log, verified, Step.Request(request, id));
      wasPending := request in pending;
      pending := pending[request := id];
      suspended := suspended[id := Waiting(request)];
      log := log + [Created(request, id)];
      OpenIsNewest(log, request);
    }

    /** `permitted` are the checks on the caller and the protocol. */
    method Respond(request: Req, response: Resp, permitted: bool) returns (r: Reply)
      requires Valid()
      modifies this
      ensures Valid() && View() == Next(old(View()), Step.Respond(request, response, permitted), verified)
      ensures r.Resume? <==> permitted && verified(request, response) && Open(old(log), request).Some?
      ensures r.Resume? ==> r.id == Open(old(log), request).value && Open(log, request).None?
      ensures r.Rejected? ==> View() == old(View()) && log == old(log)
    {
      StepExplained(View(), log, verified, Step.Respond(request, response, permitted));
      ghost var events := Events(View(), Step.Respond(request, response, permitted), verified);
      if !permitted {
        assert log + [] == log;
        return Rejected;
      }
      if !verified(request, response) {
        assert log + [] == log;
        return Rejected;
      }
      if request in pending {
        r := Resume(pending[request]);
        pending := pending - {request};
        suspended := ResumeYield(suspended, r.id, response);
        log := log + events;
      } else {
        assert log + [] == log;
        return Rejected;
      }
    }

    /**
     * The callback of yield `id`. A result, which the yield was resumed with, is only passed on. Without one the yield
     * has expired: its request is closed, whichever yield holds it by now.
     */
    method ReturnAndCleanState(request: Req, result: Option<Resp>, ghost id: DataId) returns (r: Option<Resp>)
      requires Valid() && id in suspended
      requires suspended[id] == if result.Some? then Resumed(request, result.value) else Expired(request)
      modifies this
      ensures Valid() && View() == if result.Some? then old(View()) else Next(old(View()), Callback(id), verified)
      ensures r.Some? ==> verified(request, r.value)
      ensures r == result && (r.None? ==> Open(log, request).None?)
    {
      r := result;
      if result.None? {
        StepExplained(View(), log, verified, Callback(id));
        pending := pending - {request};
        suspended := suspended[id := Failed(request)];
        log := log + [Closed(request)];
      }
    }
  }
}
