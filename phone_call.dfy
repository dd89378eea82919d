/** The phone-call alert (TwilioPhoneCall.send_alert, cabot_alert_twilio/models.py:45-101).

    The telephony provider is not modelled; it is given as the answers it
    would give: `create(n)` is what placing the n-th call of the run
    returns, `update(n)(k)` what the k-th refresh of that call returns.
    A run is recorded as the list of requests made to the provider. */
module PhoneCall {
  import opened Wrappers
  import opened Rendering
  import opened Contacts

  /** How many times a placed call's status is refreshed at most. */
  const RETRY_COUNT: nat := 5

  const TwimletsEcho: string := "http://twimlets.com/echo?"

  datatype CallStatus = Queued | Ringing | InProgress | Completed | Busy | Failed | NoAnswer | Canceled

  /** What the provider reports about a call. */
  datatype CallState = CallState(status: CallStatus, answeredBy: string)

  /** The answer to `calls.create`: the new call, or a raised error. */
  datatype Placement = Placed(call: CallState) | CreateRaised

  /** The answer to `call.update()`: the refreshed call, or a raised error. */
  datatype Refresh = Refreshed(call: CallState) | UpdateRaised

  datatype Telephony = Telephony(create: nat -> Placement, update: nat -> nat -> Refresh)

  /** A request to the provider: placing a call, or refreshing the n-th call. */
  datatype Request =
    | PlaceCall(to: string, from: string, url: string, httpMethod: string, ifMachine: string)
    | RefreshCall(call: nat)

  /** Why a run raised. */
  datatype Failure =
    | CreateFailed
    | NotQueued(status: CallStatus)
    | UpdateFailed
    | NotCompleted(status: CallStatus)
    | AnsweringMachine

  /** `send_alert` returns (`Done`) or raises while handling the given contact. */
  datatype Outcome = Done | Raised(contact: nat, failure: Failure)

  datatype Run = Run(outcome: Outcome, requests: seq<Request>)

  // ---------------------------------------------------------------------------
  // Polling one call

  /** How the poll loop ends: with the last refreshed call, or by raising. */
  datatype PollEnd = Settled(call: CallState) | PollRaised

  datatype Polling = Polling(end: PollEnd, polls: nat)

  /** The poll loop from its k-th refresh on. It refreshes at least once and
      at most RETRY_COUNT times; every refresh but the last reported a call
      that was not completed; the loop ends on the first refresh that raises,
      the first that reports a completed call, or the RETRY_COUNT-th. */
  function PollFrom(update: nat -> Refresh, k: nat): (r: Polling)
    requires k < RETRY_COUNT
    ensures k < r.polls <= RETRY_COUNT
    ensures forall j :: k <= j < r.polls - 1 ==> update(j).Refreshed? && update(j).call.status != Completed
    ensures r.end.PollRaised? ==> update(r.polls - 1).UpdateRaised?
    ensures r.end.Settled? ==>
      update(r.polls - 1) == Refreshed(r.end.call)
      && (r.end.call.status == Completed || r.polls == RETRY_COUNT)
    decreases RETRY_COUNT - k
  {
    match update(k)
    case UpdateRaised => Polling(PollRaised, k + 1)
    case Refreshed(c) =>
      if c.status == Completed || k + 1 == RETRY_COUNT then Polling(Settled(c), k + 1)
      else PollFrom(update, k + 1)
  }

  /** A call that completes on its first refresh is refreshed only once. */
  lemma FirstRefreshCompletes(update: nat -> Refresh, c: CallState)
    requires update(0) == Refreshed(c) && c.status == Completed
    ensures PollFrom(update, 0) == Polling(Settled(c), 1)
  {
  }

  /** The k-th refresh is the first to report a completed call, within the budget. */
  predicate FirstCompletion(update: nat -> Refresh, k: nat)
  {
    k < RETRY_COUNT
    && update(k).Refreshed? && update(k).call.status == Completed
    && forall j :: 0 <= j < k ==> update(j).Refreshed? && update(j).call.status != Completed
  }

  /** What the checks after the poll loop make of its end. */
  function Verdict(end: PollEnd): Option<Failure>
  {
    match end
    case PollRaised => Some(UpdateFailed)
    case Settled(c) =>
      if c.status != Completed then Some(NotCompleted(c.status))
      else if c.answeredBy == "machine" then Some(AnsweringMachine)
      else None
  }

  // ---------------------------------------------------------------------------
  // Calling one contact

  /** `calls.create(to=..., from_=..., if_machine='Hangup', url=..., method='GET')`. */
  function Dial(to: string, from: string, url: string): Request
  {
    PlaceCall(to, from, url, "GET", "Hangup")
  }

  /** `count` refreshes of the n-th call. */
  function Refreshes(n: nat, count: nat): (r: seq<Request>)
    ensures |r| == count
  {
    if count == 0 then [] else Refreshes(n, count - 1) + [RefreshCall(n)]
  }

  /** Placing and polling the n-th call of a run. */
  datatype Attempt = Attempt(requests: seq<Request>, failure: Option<Failure>)

  function CallContact(t: Telephony, n: nat, to: string, from: string, url: string): Attempt
  {
    match t.create(n)
    case CreateRaised => Attempt([Dial(to, from, url)], Some(CreateFailed))
    case Placed(c) =>
      if c.status != Queued then Attempt([Dial(to, from, url)], Some(NotQueued(c.status)))
      else
        var p := PollFrom(t.update(n), 0);
        Attempt([Dial(to, from, url)] + Refreshes(n, p.polls), Verdict(p.end))
  }

  lemma {:induction false} RefreshesOnly(n: nat, count: nat)
    ensures forall j :: 0 <= j < count ==> Refreshes(n, count)[j] == RefreshCall(n)
  {
    if count > 0 {
      RefreshesOnly(n, count - 1);
    }
  }

  /** One contact's requests: the call placement, then at most RETRY_COUNT
      refreshes of that same call. */
  lemma CallContactRequests(t: Telephony, n: nat, to: string, from: string, url: string)
    ensures var a := CallContact(t, n, to, from, url);
      && 1 <= |a.requests| <= 1 + RETRY_COUNT
      && a.requests[0] == Dial(to, from, url)
      && a.requests[1..] == Refreshes(n, |a.requests| - 1)
  {
    var a := CallContact(t, n, to, from, url);
    assert a.requests[1..] == Refreshes(n, |a.requests| - 1);
  }

  /** A call is refreshed only when it was placed and started queued; a call
      that is not refreshed makes the run raise. */
  lemma PolledOnlyIfQueued(t: Telephony, n: nat, to: string, from: string, url: string)
    ensures var a := CallContact(t, n, to, from, url);
      && (|a.requests| > 1 <==> t.create(n).Placed? && t.create(n).call.status == Queued)
      && (|a.requests| == 1 ==> a.failure.Some?)
  {
  }

  /** The n-th call was placed, started queued, and its first completed
      refresh, within the budget, says a person answered. */
  predicate AnsweredByPerson(t: Telephony, n: nat)
  {
    t.create(n).Placed? && t.create(n).call.status == Queued
    && exists k :: 0 <= k < RETRY_COUNT && FirstCompletion(t.update(n), k) && t.update(n)(k).call.answeredBy != "machine"
  }

  /** A contact's call raises nothing exactly when a person answered it. */
  lemma CallContactSucceeds(t: Telephony, n: nat, to: string, from: string, url: string)
    ensures CallContact(t, n, to, from, url).failure == None <==> AnsweredByPerson(t, n)
  {
    var u := t.update(n);
    if t.create(n).Placed? && t.create(n).call.status == Queued {
      var p := PollFrom(u, 0);
      if Verdict(p.end) == None {
        assert FirstCompletion(u, p.polls - 1);
      }
      if exists k :: 0 <= k < RETRY_COUNT && FirstCompletion(u, k) && u(k).call.answeredBy != "machine" {
        var k :| FirstCompletion(u, k) && u(k).call.answeredBy != "machine";
        assert FirstCompletion(u, k);
        assert p.polls - 1 == k;
      }
    }
  }

  // ---------------------------------------------------------------------------
  // The run over all contacts

  /** Calling `mobiles[i..]` in order, stopping at the first call that raises. */
  function DialFrom(t: Telephony, mobiles: seq<string>, i: nat, from: string, url: string): Run
    requires i <= |mobiles|
    decreases |mobiles| - i
  {
    if i == |mobiles| then Run(Done, [])
    else
      var a := CallContact(t, i, mobiles[i], from, url);
      if a.failure.Some? then Run(Raised(i, a.failure.value), a.requests)
      else
        var rest := DialFrom(t, mobiles, i + 1, from, url);
        Run(rest.outcome, a.requests + rest.requests)
  }

  /** The twimlets URL that speaks the voice text; `twiml` stands for the
      TwiML document and URL encoding of the text. */
  function TwimletUrl(service: Service, twiml: string -> string): string
  {
    TwimletsEcho + twiml(VoiceText(service))
  }

  /** The whole alert for a service, given the stored numbers of the records
      the lookup returns for its duty officers, in the order returned. */
  function PhoneAlert(service: Service, dutyOfficers: seq<Option<string>>, outgoing: string,
                      twiml: string -> string, t: Telephony): Run
  {
    if service.overallStatus != Critical then Run(Done, [])
    else DialFrom(t, Mobiles(dutyOfficers), 0, outgoing, TwimletUrl(service, twiml))
  }

  /** The numbers dialled by a list of requests, in order. */
  function Dialled(requests: seq<Request>): seq<string>
  {
    if requests == [] then []
    else (if requests[0].PlaceCall? then [requests[0].to] else []) + Dialled(requests[1..])
  }

  lemma {:induction false} DialledAppend(a: seq<Request>, b: seq<Request>)
    ensures Dialled(a + b) == Dialled(a) + Dialled(b)
  {
    if a == [] {
      assert a + b == b;
    } else {
      var h := if a[0].PlaceCall? then [a[0].to] else [];
      assert (a + b)[0] == a[0];
      assert (a + b)[1..] == a[1..] + b;
      assert Dialled(a + b) == h + Dialled(a[1..] + b);
      DialledAppend(a[1..], b);
      assert Dialled(a) == h + Dialled(a[1..]);
    }
  }

  lemma {:induction false} DialledRefreshes(n: nat, count: nat)
    ensures Dialled(Refreshes(n, count)) == []
  {
    if count > 0 {
      DialledRefreshes(n, count - 1);
      DialledAppend(Refreshes(n, count - 1), [RefreshCall(n)]);
    }
  }

  lemma DialledAttempt(t: Telephony, n: nat, to: string, from: string, url: string)
    ensures Dialled(CallContact(t, n, to, from, url).requests) == [to]
  {
    var r := CallContact(t, n, to, from, url).requests;
    CallContactRequests(t, n, to, from, url);
    assert r == [r[0]] + r[1..];
    DialledAppend([r[0]], r[1..]);
    DialledRefreshes(n, |r| - 1);
  }

  /** From contact i on, the contacts are dialled once each, in order: all of
      them when the run returns, and up to the one that raised otherwise. */
  lemma {:induction false} DialFromDials(t: Telephony, mobiles: seq<string>, i: nat, from: string, url: string)
    requires i <= |mobiles|
    ensures var r := DialFrom(t, mobiles, i, from, url);
      match r.outcome
      case Done => Dialled(r.requests) == mobiles[i..]
      case Raised(k, _) => i <= k < |mobiles| && Dialled(r.requests) == mobiles[i..k + 1]
    decreases |mobiles| - i
  {
    if i < |mobiles| {
      var a := CallContact(t, i, mobiles[i], from, url);
      DialledAttempt(t, i, mobiles[i], from, url);
      if a.failure.None? {
        var rest := DialFrom(t, mobiles, i + 1, from, url);
        DialFromDials(t, mobiles, i + 1, from, url);
        DialledAppend(a.requests, rest.requests);
        assert DialFrom(t, mobiles, i, from, url) == Run(rest.outcome, a.requests + rest.requests);
        assert Dialled(a.requests + rest.requests) == [mobiles[i]] + Dialled(rest.requests);
        DialledSuffix(mobiles, i, rest.outcome);
      } else {
        assert mobiles[i..i + 1] == [mobiles[i]];
      }
    }
  }

  lemma DialledSuffix(mobiles: seq<string>, i: nat, o: Outcome)
    requires i < |mobiles|
    requires o.Raised? ==> i + 1 <= o.contact < |mobiles|
    ensures mobiles[i..] == [mobiles[i]] + mobiles[i + 1..]
    ensures o.Raised? ==> mobiles[i..o.contact + 1] == [mobiles[i]] + mobiles[i + 1..o.contact + 1]
  {
  }

  /** From contact i on, the run returns exactly when every call is answered by a person. */
  lemma {:induction false} DialFromDone(t: Telephony, mobiles: seq<string>, i: nat, from: string, url: string)
    requires i <= |mobiles|
    ensures DialFrom(t, mobiles, i, from, url).outcome == Done
      <==> forall j :: i <= j < |mobiles| ==> AnsweredByPerson(t, j)
    decreases |mobiles| - i
  {
    if i < |mobiles| {
      CallContactSucceeds(t, i, mobiles[i], from, url);
      DialFromDone(t, mobiles, i + 1, from, url);
    }
  }

  /** The contact a run raised at is the first whose call was not answered by a person. */
  lemma {:induction false} DialFromRaised(t: Telephony, mobiles: seq<string>, i: nat, from: string, url: string)
    requires i <= |mobiles|
    ensures var o := DialFrom(t, mobiles, i, from, url).outcome;
      o.Raised? ==>
        !AnsweredByPerson(t, o.contact) && forall j :: i <= j < o.contact ==> AnsweredByPerson(t, j)
    decreases |mobiles| - i
  {
    if i < |mobiles| {
      CallContactSucceeds(t, i, mobiles[i], from, url);
      DialFromRaised(t, mobiles, i + 1, from, url);
    }
  }

  /** Every call of a run is placed from the outgoing number, with the same
      voice message, by GET, hanging up on answering machines. */
  lemma {:induction false} DialFromSameMessage(t: Telephony, mobiles: seq<string>, i: nat, from: string, url: string)
    requires i <= |mobiles|
    ensures forall r :: r in DialFrom(t, mobiles, i, from, url).requests && r.PlaceCall? ==>
      r.from == from && r.url == url && r.httpMethod == "GET" && r.ifMachine == "Hangup"
    decreases |mobiles| - i
  {
    if i < |mobiles| {
      DialFromSameMessage(t, mobiles, i + 1, from, url);
      var a := CallContact(t, i, mobiles[i], from, url);
      CallContactRequests(t, i, mobiles[i], from, url);
      RefreshesOnly(i, |a.requests| - 1);
      assert forall j :: 1 <= j < |a.requests| ==> a.requests[j] == a.requests[1..][j - 1];
      assert forall r :: r in a.requests && r.PlaceCall? ==> r == Dial(mobiles[i], from, url) by {
        forall r | r in a.requests && r.PlaceCall? ensures r == Dial(mobiles[i], from, url) {
          var j :| 0 <= j < |a.requests| && a.requests[j] == r;
          assert j == 0;
        }
      }
    }
  }

  /** What the alert does, in the terms of the plugin: nothing unless the
      service is CRITICAL; otherwise the duty officers with a number are
      dialled once each, in the order the lookup returns them, with one and
      the same message; the run returns only when every call was answered by
      a person, and raises at the first that was not, dialling no one after
      it. */
  lemma PhoneAlertCalls(service: Service, dutyOfficers: seq<Option<string>>, outgoing: string,
                        twiml: string -> string, t: Telephony)
    ensures var r := PhoneAlert(service, dutyOfficers, outgoing, twiml, t);
      var mobiles := Mobiles(dutyOfficers);
      && (service.overallStatus != Critical ==> r == Run(Done, []))
      && (service.overallStatus == Critical ==>
            && (r.outcome == Done <==> forall j :: 0 <= j < |mobiles| ==> AnsweredByPerson(t, j))
            && (r.outcome == Done ==> Dialled(r.requests) == mobiles)
            && (r.outcome.Raised? ==>
                  && r.outcome.contact < |mobiles|
                  && Dialled(r.requests) == mobiles[..r.outcome.contact + 1]
                  && !AnsweredByPerson(t, r.outcome.contact)
                  && forall j :: 0 <= j < r.outcome.contact ==> AnsweredByPerson(t, j))
            && forall q :: q in r.requests && q.PlaceCall? ==>
                 q.from == outgoing && q.url == TwimletUrl(service, twiml))
  {
    if service.overallStatus == Critical {
      var mobiles := Mobiles(dutyOfficers);
      var url := TwimletUrl(service, twiml);
      DialFromDials(t, mobiles, 0, outgoing, url);
      DialFromDone(t, mobiles, 0, outgoing, url);
      DialFromRaised(t, mobiles, 0, outgoing, url);
      DialFromSameMessage(t, mobiles, 0, outgoing, url);
      assert mobiles[0..] == mobiles;
    }
  }

  // ---------------------------------------------------------------------------
  // The imperative code

  /** The poll loop of `send_alert`: refresh the call until it reports
      COMPLETED, at most RETRY_COUNT times. `update(k)` answers the k-th refresh;
      `placed` is the call as it was created. */
  method Poll(placed: CallState, update: nat -> Refresh) returns (end: PollEnd, polls: nat)
    ensures Polling(end, polls) == PollFrom(update, 0)
  {
    var call := placed;
    var count := RETRY_COUNT;
    while count > 0
      invariant 0 <= count <= RETRY_COUNT
      invariant count > 0 ==> PollFrom(update, 0) == PollFrom(update, RETRY_COUNT - count)
      invariant count == 0 ==> PollFrom(update, 0) == Polling(Settled(call), RETRY_COUNT)
    {
      var refreshed := update(RETRY_COUNT - count);
      if refreshed.UpdateRaised? {
        return PollRaised, RETRY_COUNT - count + 1;
      }
      call := refreshed.call;
      if call.status == Completed {
        return Settled(call), RETRY_COUNT - count + 1;
      }
      count := count - 1;
    }
    return Settled(call), RETRY_COUNT;
  }

  /** The body of the `try` block for one contact: place the call, check it
      is queued, poll it, check it completed and was not answered by a machine. */
  method CallOne(t: Telephony, n: nat, to: string, from: string, url: string)
    returns (requests: seq<Request>, failure: Option<Failure>)
    ensures Attempt(requests, failure) == CallContact(t, n, to, from, url)
  {
    requests := [Dial(to, from, url)];
    var placed := t.create(n);
    if placed.CreateRaised? {
      return requests, Some(CreateFailed);
    }
    if placed.call.status != Queued {
      return requests, Some(NotQueued(placed.call.status));
    }
    var end, polls := Poll(placed.call, t.update(n));
    requests := requests + Refreshes(n, polls);
    if end.PollRaised? {
      return requests, Some(UpdateFailed);
    }
    var call := end.call;
    if call.status != Completed {
      return requests, Some(NotCompleted(call.status));
    }
    if call.answeredBy == "machine" {
      return requests, Some(AnsweringMachine);
    }
    return requests, None;
  }

  /** One step of a run: how the run from contact i on is made of contact
      i's attempt and the run from contact i + 1 on. */
  lemma DialFromStep(t: Telephony, mobiles: seq<string>, i: nat, from: string, url: string,
                     requests: seq<Request>, failure: Option<Failure>)
    requires i < |mobiles|
    requires Attempt(requests, failure) == CallContact(t, i, mobiles[i], from, url)
    ensures failure.Some? ==> DialFrom(t, mobiles, i, from, url) == Run(Raised(i, failure.value), requests)
    ensures failure.None? ==>
      var rest := DialFrom(t, mobiles, i + 1, from, url);
      DialFrom(t, mobiles, i, from, url) == Run(rest.outcome, requests + rest.requests)
  {
  }

  /** The `for mobile in mobiles` loop: call each number in turn until a call raises. */
  method DialAll(t: Telephony, mobiles: seq<string>, from: string, url: string)
    returns (outcome: Outcome, requests: seq<Request>)
    ensures Run(outcome, requests) == DialFrom(t, mobiles, 0, from, url)
  {
    outcome, requests := Done, [];
    for i := 0 to |mobiles|
      invariant DialFrom(t, mobiles, 0, from, url)
        == Run(DialFrom(t, mobiles, i, from, url).outcome, requests + DialFrom(t, mobiles, i, from, url).requests)
    {
      var attempt, failure := CallOne(t, i, mobiles[i], from, url);
      DialFromStep(t, mobiles, i, from, url, attempt, failure);
      if failure.Some? {
        return Raised(i, failure.value), requests + attempt;
      }
      ghost var rest := DialFrom(t, mobiles, i + 1, from, url);
      assert requests + (attempt + rest.requests) == (requests + attempt) + rest.requests;
      requests := requests + attempt;
    }
    assert requests + [] == requests;
  }

  /** `TwilioPhoneCall.send_alert`: the numbers of the duty officers are the
      stored numbers of the records the lookup returns for them, in that order. */
  method SendAlert(service: Service, dutyOfficers: seq<Option<string>>, outgoing: string,
                   twiml: string -> string, t: Telephony)
    returns (outcome: Outcome, requests: seq<Request>)
    ensures Run(outcome, requests) == PhoneAlert(service, dutyOfficers, outgoing, twiml, t)
    ensures service.overallStatus != Critical ==> outcome == Done && requests == []
  {
    if service.overallStatus != Critical {
      return Done, [];
    }
    var url := TwimletUrl(service, twiml);
    var mobiles := Mobiles(dutyOfficers);
    outcome, requests := DialAll(t, mobiles, outgoing, url);
  }
}
