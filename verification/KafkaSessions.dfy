/**
  Incremental fetch sessions (KIP-227). Both directions of an incremental session
  omit what did not change. The reference below reads the whole history of an
  exchange sequence; the observer keeps one map and rewrites it turn by turn.
 */
module KafkaSessions {
  import opened Options
  import opened Ownership
  import opened KafkaState
  import opened KafkaSteps
  import opened KafkaRuns

  // One request and its successful response, with topic names resolved.
  datatype Exchange = Exchange(forgotten: seq<TopicPartition>, updates: seq<Update>, statuses: map<TopicPartition, bool>)

  // --------------------------------------------------------------- reference meaning

  ghost predicate Mentions(updates: seq<Update>, key: TopicPartition) {
    exists i :: 0 <= i < |updates| && updates[i].key == key
  }

  ghost predicate Updated(h: seq<Exchange>, key: TopicPartition, i: int) {
    0 <= i < |h| && Mentions(h[i].updates, key)
  }

  ghost predicate Kept(h: seq<Exchange>, key: TopicPartition, i: int) {
    forall j :: i < j < |h| && 0 <= j ==> key !in h[j].forgotten
  }

  // The session contains the partition: it was sent and not forgotten by a later request.
  ghost predicate Present(h: seq<Exchange>, key: TopicPartition) {
    exists i :: Updated(h, key, i) && Kept(h, key, i)
  }

  // Turn i added the partition: it was absent before, or the same request forgot it first.
  ghost predicate Added(h: seq<Exchange>, key: TopicPartition, i: int) {
    Updated(h, key, i) && Kept(h, key, i) && (key in h[i].forgotten || !Present(h[..i], key))
  }

  // The offset is the last one sent for the partition.
  ghost predicate LastSent(updates: seq<Update>, key: TopicPartition, offset: int) {
    exists i :: 0 <= i < |updates| && updates[i] == Update(key, offset)
                && forall j :: i < j < |updates| ==> updates[j].key != key
  }

  ghost predicate LastOffset(h: seq<Exchange>, key: TopicPartition, offset: int) {
    exists i :: Updated(h, key, i) && LastSent(h[i].updates, key, offset)
                && forall j :: i < j < |h| ==> !Updated(h, key, j)
  }

  // The last status reported from turn i on exists and is a success.
  ghost predicate AcceptedSince(h: seq<Exchange>, key: TopicPartition, i: int) {
    exists j :: i <= j && StatusAt(h, key, j) && h[j].statuses[key]
                && forall later :: j < later ==> !StatusAt(h, key, later)
  }

  ghost predicate StatusAt(h: seq<Exchange>, key: TopicPartition, j: int) {
    0 <= j < |h| && key in h[j].statuses
  }

  ghost predicate MeansAt(h: seq<Exchange>, session: Session, key: TopicPartition) {
    && (key in session <==> Present(h, key))
    && (key in session ==>
          && LastOffset(h, key, session[key].offset)
          && (exists i :: Added(h, key, i))
          && forall i :: Added(h, key, i) ==> (session[key].accepted <==> AcceptedSince(h, key, i)))
  }

  // The session is exactly what a full fetch after this history would mean.
  ghost predicate Means(h: seq<Exchange>, session: Session) {
    forall key :: MeansAt(h, session, key)
  }

  // --------------------------------------------------------------- one turn

  ghost function Turn(session: Session, x: Exchange): Session {
    var asked := ApplyUpdates(Forget(session, x.forgotten), x.updates);
    map k | k in asked :: SessionPosition(asked[k].offset, if k in x.statuses then x.statuses[k] else asked[k].accepted)
  }

  lemma LastSentSnoc(init: seq<Update>, last: Update, key: TopicPartition, offset: int)
    ensures Mentions(init + [last], key) <==> last.key == key || Mentions(init, key)
    ensures last.key == key ==> LastSent(init + [last], key, last.offset)
    ensures last.key != key && LastSent(init, key, offset) ==> LastSent(init + [last], key, offset)
  {
    var all := init + [last];
    assert all[|init|] == last;
    if Mentions(init, key) {
      var i :| 0 <= i < |init| && init[i].key == key;
      assert all[i].key == key;
    }
    if last.key != key && LastSent(init, key, offset) {
      var i :| 0 <= i < |init| && init[i] == Update(key, offset) && forall j :: i < j < |init| ==> init[j].key != key;
      assert all[i] == Update(key, offset) && forall j :: i < j < |all| ==> all[j].key != key;
    }
  }

  lemma {:induction false} ApplyUpdatesAt(session: Session, updates: seq<Update>, key: TopicPartition)
    ensures var after := ApplyUpdates(session, updates);
      && (key in after <==> key in session || Mentions(updates, key))
      && AcceptedIn(after, key) == AcceptedIn(session, key)
      && (key in after ==> if Mentions(updates, key) then LastSent(updates, key, after[key].offset)
                           else after[key] == session[key])
  {
    if |updates| > 0 {
      var init, last := updates[..|updates| - 1], updates[|updates| - 1];
      ApplyUpdatesAt(session, init, key);
      assert updates == init + [last];
      var before := ApplyUpdates(session, init);
      LastSentSnoc(init, last, key, if key in before then before[key].offset else 0);
    }
  }

  lemma PresentExtended(h: seq<Exchange>, x: Exchange, key: TopicPartition)
    ensures Present(h + [x], key) <==> Mentions(x.updates, key) || (Present(h, key) && key !in x.forgotten)
  {
    var g := h + [x];
    if Mentions(x.updates, key) {
      assert Updated(g, key, |h|) && Kept(g, key, |h|);
    }
    if Present(h, key) && key !in x.forgotten {
      var i :| Updated(h, key, i) && Kept(h, key, i);
      assert Updated(g, key, i) && Kept(g, key, i);
    }
    if Present(g, key) && !Mentions(x.updates, key) {
      var i :| Updated(g, key, i) && Kept(g, key, i);
      assert g[|h|] == x;
      assert forall j :: i < j < |h| ==> g[j] == h[j];
      assert Updated(h, key, i) && Kept(h, key, i);
    }
  }

  lemma AddedExtended(h: seq<Exchange>, x: Exchange, key: TopicPartition, i: int)
    ensures Added(h + [x], key, i) <==>
              if i == |h| then Mentions(x.updates, key) && (key in x.forgotten || !Present(h, key))
              else Added(h, key, i) && key !in x.forgotten
  {
    var g := h + [x];
    assert g[|h|] == x && g[..|h|] == h;
    if 0 <= i < |h| {
      assert g[..i] == h[..i];
      assert forall j :: i < j < |h| ==> g[j] == h[j];
      assert Kept(g, key, i) <==> Kept(h, key, i) && key !in x.forgotten;
    }
  }

  lemma AcceptedExtended(h: seq<Exchange>, x: Exchange, key: TopicPartition, i: int)
    requires 0 <= i <= |h|
    ensures AcceptedSince(h + [x], key, i) <==>
              if key in x.statuses then x.statuses[key] else i < |h| && AcceptedSince(h, key, i)
  {
    var g := h + [x];
    assert forall j :: StatusAt(g, key, j) <==> StatusAt(h, key, j) || (j == |h| && key in x.statuses);
    if key in x.statuses {
      assert StatusAt(g, key, |h|);
      if x.statuses[key] {
        assert AcceptedSince(g, key, i);
      }
    } else if i < |h| && AcceptedSince(h, key, i) {
      var j :| i <= j && StatusAt(h, key, j) && h[j].statuses[key] && forall later :: j < later ==> !StatusAt(h, key, later);
      assert StatusAt(g, key, j) && g[j].statuses[key];
    }
  }

  lemma LastOffsetExtended(h: seq<Exchange>, x: Exchange, key: TopicPartition, offset: int)
    ensures Mentions(x.updates, key) && LastSent(x.updates, key, offset) ==> LastOffset(h + [x], key, offset)
    ensures !Mentions(x.updates, key) && LastOffset(h, key, offset) ==> LastOffset(h + [x], key, offset)
  {
    var g := h + [x];
    if Mentions(x.updates, key) && LastSent(x.updates, key, offset) {
      assert Updated(g, key, |h|);
    }
    if !Mentions(x.updates, key) && LastOffset(h, key, offset) {
      var i :| Updated(h, key, i) && LastSent(h[i].updates, key, offset) && forall j :: i < j < |h| ==> !Updated(h, key, j);
      assert Updated(g, key, i) && g[i] == h[i];
      assert forall j :: i < j < |g| && j < |h| ==> Updated(g, key, j) == Updated(h, key, j);
      assert !Updated(g, key, |h|);
    }
  }

  lemma TurnMeansAt(h: seq<Exchange>, session: Session, x: Exchange, key: TopicPartition)
    requires MeansAt(h, session, key)
    ensures MeansAt(h + [x], Turn(session, x), key)
  {
    var g, after := h + [x], Turn(session, x);
    var forgot := Forget(session, x.forgotten);
    ApplyUpdatesAt(forgot, x.updates, key);
    PresentExtended(h, x, key);
    if key in after {
      LastOffsetExtended(h, x, key, after[key].offset);
      forall i ensures Added(g, key, i) ==> (after[key].accepted <==> AcceptedSince(g, key, i)) {
        AddedExtended(h, x, key, i);
        if Added(g, key, i) {
          AcceptedExtended(h, x, key, i);
        }
      }
      AddedExtended(h, x, key, |h|);
      if key in forgot {
        var i :| Added(h, key, i);
        AddedExtended(h, x, key, i);
      }
    }
  }

  // --------------------------------------------------------------- the observer's turn

  lemma {:induction false} SessionOfAt(req: Request, statuses: map<TopicPartition, bool>, positions: seq<FetchPosition>,
                                       key: TopicPartition)
    requires req.Fetch? && KeysDistinct(positions)
    ensures var s := SessionOf(req, statuses, positions);
      && (key in s <==> exists i :: 0 <= i < |positions| && positions[i].key == key)
      && forall i :: 0 <= i < |positions| && positions[i].key == key ==>
                       s[key] == SessionPosition(positions[i].offset, AcceptedNow(req, statuses, positions[i]))
  {
    if |positions| > 0 {
      var init := positions[..|positions| - 1];
      SessionOfAt(req, statuses, init, key);
      if exists i :: 0 <= i < |init| && init[i].key == key {
        var i :| 0 <= i < |init| && init[i].key == key;
        assert positions[i].key == key;
      }
    }
  }

  // The exchange a request in state o and a response in state o' stand for.
  ghost function ExchangeOf(o: Observer, req: Request, o': Observer, r: Response): Exchange
    requires req.Fetch? && r.FetchOk?
  {
    Exchange(ForgottenKeys(o.topics, req.forgotten), UpdatesOf(o.topics, req.topics), StatusesOf(o'.topics, r.statuses))
  }

  ghost predicate AllUsable(session: Session) {
    forall k :: k in session ==> Usable(k, session[k])
  }

  ghost predicate UsableUpdates(updates: seq<Update>) {
    forall i :: 0 <= i < |updates| ==> updates[i].key.topic != "" && updates[i].offset >= 0
  }

  lemma UsableTurn(session: Session, x: Exchange)
    requires AllUsable(session) && UsableUpdates(x.updates)
    ensures AllUsable(ApplyUpdates(Forget(session, x.forgotten), x.updates)) && AllUsable(Turn(session, x))
  {
    var asked := ApplyUpdates(Forget(session, x.forgotten), x.updates);
    forall k | k in asked ensures Usable(k, asked[k]) {
      ApplyUpdatesAt(Forget(session, x.forgotten), x.updates, k);
    }
  }

  // The positions list the requested session, each key once.
  ghost predicate Lists(positions: seq<FetchPosition>, asked: Session) {
    && KeysDistinct(positions)
    && (forall i :: 0 <= i < |positions| ==>
          && positions[i].key in asked
          && SessionPosition(positions[i].offset, positions[i].accepted) == asked[positions[i].key])
    && (forall k :: k in asked ==> exists i :: 0 <= i < |positions| && positions[i].key == k)
  }

  lemma ListedTurn(req: Request, base: Session, x: Exchange, positions: seq<FetchPosition>)
    requires req.Fetch? && (Incremental(req) || base == map[])
    requires Lists(positions, ApplyUpdates(Forget(base, x.forgotten), x.updates))
    ensures SessionOf(req, x.statuses, positions) == Turn(base, x)
  {
    var stored, asked := SessionOf(req, x.statuses, positions), ApplyUpdates(Forget(base, x.forgotten), x.updates);
    forall k ensures (k in stored <==> k in asked) && (k in stored ==> stored[k] == Turn(base, x)[k]) {
      ListedTurnAt(req, base, x, positions, k);
    }
    assert stored.Keys == asked.Keys;
  }

  lemma ListedTurnAt(req: Request, base: Session, x: Exchange, positions: seq<FetchPosition>, k: TopicPartition)
    requires req.Fetch? && (Incremental(req) || base == map[])
    requires Lists(positions, ApplyUpdates(Forget(base, x.forgotten), x.updates))
    ensures var stored, asked := SessionOf(req, x.statuses, positions), ApplyUpdates(Forget(base, x.forgotten), x.updates);
      (k in stored <==> k in asked) && (k in stored ==> stored[k] == Turn(base, x)[k])
  {
    var asked := ApplyUpdates(Forget(base, x.forgotten), x.updates);
    SessionOfAt(req, x.statuses, positions, k);
    if k in asked {
      var i :| 0 <= i < |positions| && positions[i].key == k;
      NewlyAsked(req, base, x, k);
    }
  }

  // In a request that does not continue a session nothing counts as accepted before.
  lemma NewlyAsked(req: Request, base: Session, x: Exchange, key: TopicPartition)
    requires req.Fetch? && (Incremental(req) || base == map[])
    requires key in ApplyUpdates(Forget(base, x.forgotten), x.updates)
    ensures ApplyUpdates(Forget(base, x.forgotten), x.updates)[key].accepted ==> Incremental(req)
  {
    ApplyUpdatesAt(Forget(base, x.forgotten), x.updates, key);
  }

  /** The session the observer stores after one exchange is the turn of the one it started from. */
  lemma ObserverTurn(o: Observer, live: Liveness, p: Pending, o': Observer, r: Response)
    requires p.req.Fetch? && r.FetchOk? && Active(live, p.source) && IsPending(o, p.req, p.client, p.source, live, p)
    requires AllUsable(BaseSession(o, p.req, p.client, p.source)) && UsableUpdates(UpdatesOf(o.topics, p.req.topics))
    ensures SessionOf(p.req, StatusesOf(o'.topics, r.statuses), p.positions)
         == Turn(BaseSession(o, p.req, p.client, p.source), ExchangeOf(o, p.req, o', r))
  {
    var base := BaseSession(o, p.req, p.client, p.source);
    var x := ExchangeOf(o, p.req, o', r);
    UsableTurn(base, x);
    assert Lists(p.positions, RequestedPositions(o, p.req, p.client, p.source));
    ListedTurn(p.req, base, x, p.positions);
  }

  // --------------------------------------------------------------- along a run

  // The steps at which one request was made and its response observed.
  datatype Pair = Pair(ask: nat, answer: nat)

  ghost predicate IsExchange(run: Run, x: Pair, key: SessionKey, first: bool)
    requires IsRun(run)
  {
    && x.ask < x.answer < |run.steps|
    && var q, a := run.steps[x.ask], run.steps[x.answer];
    && q.Requested? && q.req.Fetch? && Active(q.live, q.source)
    && q.client == key.client && q.source.instance == key.instance && key.id > 0
    && (if first then !Incremental(q.req) else Incremental(q.req) && q.req.sessionId == key.id)
    && q.req.sessionEpoch != -1
    && UsableUpdates(UpdatesOf(run.states[x.ask].obs.topics, q.req.topics))
    && a.Responded? && a.sequence == run.states[x.ask].obs.sequence + 1
    && a.sequence in run.states[x.answer].pending
    && a.response.FetchOk? && a.response.error == 0 && a.response.sessionId == key.id
    && Admitted(run.states[x.answer].pending[a.sequence], a.live, a.owner)
  }

  // Step i answers some Fetch in the session, or opens or closes it.
  ghost predicate Touches(run: Run, i: nat, key: SessionKey)
    requires IsRun(run) && i < |run.steps|
  {
    var step := run.steps[i];
    && step.Responded?
    && var p := run.states[i].pending[step.sequence];
    && p.req.Fetch? && p.client == key.client && p.source.instance == key.instance
    && (p.req.sessionId == key.id || step.response.sessionId == key.id)
  }

  // One exchange at a time: nothing else touches the session between an answer and the next request.
  ghost predicate IsConversation(run: Run, pairs: seq<Pair>, key: SessionKey)
    requires IsRun(run)
  {
    |pairs| > 0 ==>
      var n := |pairs| - 1;
      && IsConversation(run, pairs[..n], key)
      && IsExchange(run, pairs[n], key, n == 0)
      && (n > 0 ==> pairs[n - 1].answer < pairs[n].ask && Untouched(run, pairs[n - 1].answer + 1, pairs[n].ask, key))
  }

  ghost predicate Untouched(run: Run, i: nat, j: nat, key: SessionKey)
    requires IsRun(run) && j <= |run.steps|
  {
    forall k :: i <= k < j ==> !Touches(run, k, key)
  }

  ghost function Exchanged(run: Run, x: Pair): Exchange
    requires IsRun(run) && x.ask < |run.steps| && x.answer < |run.steps|
    requires run.steps[x.ask].Requested? && run.steps[x.ask].req.Fetch?
    requires run.steps[x.answer].Responded? && run.steps[x.answer].response.FetchOk?
  {
    ExchangeOf(run.states[x.ask].obs, run.steps[x.ask].req, run.states[x.answer].obs, run.steps[x.answer].response)
  }

  ghost function History(run: Run, pairs: seq<Pair>, key: SessionKey): seq<Exchange>
    requires IsRun(run) && IsConversation(run, pairs, key)
  {
    if |pairs| == 0 then [] else History(run, pairs[..|pairs| - 1], key) + [Exchanged(run, pairs[|pairs| - 1])]
  }

  ghost function SessionAt(run: Run, i: nat, key: SessionKey): Session
    requires i < |run.states|
  {
    var sessions := run.states[i].obs.sessions;
    if key in sessions then sessions[key] else map[]
  }

  lemma UntouchedStep(run: Run, i: nat, key: SessionKey)
    requires IsRun(run) && i < |run.steps| && !Touches(run, i, key)
    ensures SessionAt(run, i + 1, key) == SessionAt(run, i, key)
  {
    var s, step := run.states[i], run.steps[i];
    if step.Responded? {
      ResponseKeepsOthers(s.obs, s.pending[step.sequence], step.response, step.live, step.owner, key);
    }
  }

  // A response leaves the sessions of other clients, processes and numbers alone.
  lemma ResponseKeepsOthers(o: Observer, p: Pending, r: Response, live: Liveness, owner: Option<Source>, key: SessionKey)
    requires Answers(p.req, r)
    requires !(p.req.Fetch? && p.client == key.client && p.source.instance == key.instance
               && (p.req.sessionId == key.id || r.sessionId == key.id))
    ensures var after := AfterResponse(o, p, r, live, owner).sessions;
      (key in after <==> key in o.sessions) && (key in after ==> after[key] == o.sessions[key])
  {
    if p.req.Fetch? {
      SessionKeepsOthers(o, p, r, key);
    }
  }

  lemma SessionKeepsOthers(o: Observer, p: Pending, r: Response, key: SessionKey)
    requires p.req.Fetch? && r.FetchOk?
    requires KeyOf(p.req.sessionId, p.source, p.client) != key && KeyOf(r.sessionId, p.source, p.client) != key
    ensures var after := AfterSession(o, p, r);
      (key in after <==> key in o.sessions) && (key in after ==> after[key] == o.sessions[key])
  {
  }

  lemma {:induction false} SteadySession(run: Run, i: nat, j: nat, key: SessionKey)
    requires i <= j < |run.states| && forall k :: i <= k < j ==> SessionAt(run, k + 1, key) == SessionAt(run, k, key)
    ensures SessionAt(run, j, key) == SessionAt(run, i, key)
    decreases j - i
  {
    if i < j {
      SteadySession(run, i, j - 1, key);
      assert SessionAt(run, j - 1 + 1, key) == SessionAt(run, j - 1, key);
    }
  }

  lemma UntouchedSteps(run: Run, i: nat, j: nat, key: SessionKey)
    requires IsRun(run) && i <= j <= |run.steps| && Untouched(run, i, j, key)
    ensures SessionAt(run, j, key) == SessionAt(run, i, key)
  {
    forall k | i <= k < j ensures SessionAt(run, k + 1, key) == SessionAt(run, k, key) {
      UntouchedStep(run, k, key);
    }
    SteadySession(run, i, j, key);
  }

  lemma ExchangeTurns(run: Run, x: Pair, key: SessionKey, first: bool, session: Session)
    requires IsRun(run) && IsExchange(run, x, key, first) && AllUsable(session)
    requires session == if first then map[] else SessionAt(run, x.ask, key)
    ensures SessionAt(run, x.answer + 1, key) == Turn(session, Exchanged(run, x))
  {
    var q, a := run.steps[x.ask], run.steps[x.answer];
    var o, o' := run.states[x.ask].obs, run.states[x.answer].obs;
    var i := PendingWasRequested(run, x.answer, a.sequence);
    SequenceIdentifiesRequest(run, i, x.ask);
    var p := run.states[x.answer].pending[a.sequence];
    assert p == Pending(q.req, q.client, a.sequence, q.source, q.positions);
    assert KeyOf(key.id, q.source, q.client) == key;
    assert BaseSession(o, q.req, q.client, q.source) == session;
    ObserverTurn(o, q.live, p, o', a.response);
  }

  lemma {:induction false} SequenceGrows(run: Run, i: nat, j: nat)
    requires IsRun(run) && i < j <= |run.steps| && run.steps[i].Requested?
    ensures run.states[i].obs.sequence < run.states[j].obs.sequence
    decreases j - i
  {
    if i + 1 < j {
      SequenceGrows(run, i, j - 1);
    }
  }

  lemma SequenceIdentifiesRequest(run: Run, i: nat, j: nat)
    requires IsRun(run) && i < |run.steps| && j < |run.steps| && run.steps[i].Requested? && run.steps[j].Requested?
    requires run.states[i].obs.sequence == run.states[j].obs.sequence
    ensures i == j
  {
    if i < j {
      SequenceGrows(run, i, j);
    } else if j < i {
      SequenceGrows(run, j, i);
    }
  }

  lemma TurnMeans(h: seq<Exchange>, session: Session, x: Exchange)
    requires Means(h, session)
    ensures Means(h + [x], Turn(session, x))
  {
    forall k ensures MeansAt(h + [x], Turn(session, x), k) {
      TurnMeansAt(h, session, x, k);
    }
  }

  lemma {:induction false} ConversationTracked(run: Run, pairs: seq<Pair>, key: SessionKey)
    requires IsRun(run) && IsConversation(run, pairs, key) && |pairs| > 0
    ensures var s := SessionAt(run, pairs[|pairs| - 1].answer + 1, key);
      AllUsable(s) && Means(History(run, pairs, key), s)
  {
    var n := |pairs| - 1;
    var x, init := pairs[n], pairs[..n];
    var before: Session := map[];
    if n > 0 {
      ConversationTracked(run, init, key);
      UntouchedSteps(run, init[n - 1].answer + 1, x.ask, key);
      before := SessionAt(run, x.ask, key);
    }
    assert Means(History(run, init, key), before);
    ExchangeTurns(run, x, key, n == 0, before);
    UsableTurn(before, Exchanged(run, x));
    TurnMeans(History(run, init, key), before, Exchanged(run, x));
  }

  /**
    Along any run, after any sequence of one-at-a-time successful exchanges of one
    session (resolved topics, non-negative offsets), whatever other connections do in
    between, the tracked session is the full-fetch meaning of the whole exchange history.
   */
  lemma SessionIsFullFetchMeaning(run: Run, pairs: seq<Pair>, key: SessionKey)
    requires IsRun(run) && IsConversation(run, pairs, key) && |pairs| > 0
    ensures Means(History(run, pairs, key), SessionAt(run, pairs[|pairs| - 1].answer + 1, key))
  {
    ConversationTracked(run, pairs, key);
  }
}
