/** What a restart finds: along every run the session file holds the newest saved session, whole. */
module Durable {
  import opened Wrappers
  import opened Calendar
  import opened Session
  import opened Transport
  import opened Client
  import opened Store
  import opened Model
  import opened Backend
  import opened Safety
  import opened Runs

  /** The session saved last in a history. */
  function LastSaved(events: seq<Event>): Option<LocalSession> {
    if events == [] then None
    else
      var last := events[|events| - 1];
      if last.Committed? then Some(last.session) else LastSaved(events[..|events| - 1])
  }

  lemma LastSavedAppend(events: seq<Event>, e: Event)
    ensures LastSaved(events + [e]) == if e.Committed? then Some(e.session) else LastSaved(events)
  {
    assert (events + [e])[..|events|] == events;
  }

  /** The session file as the history describes it: the last saved document, or still the first one. */
  function FileAt(first: Option<string>, events: seq<Event>): Option<string> {
    match LastSaved(events)
    case None => first
    case Some(s) => Some(Encode(s))
  }

  /** Each visited disk shows the file as of some point of the history, and later disks as of no earlier point. */
  ghost predicate Whole(first: Option<string>, visited: seq<Disk>, trace: seq<Event>, points: seq<nat>) {
    && |points| == |visited|
    && (forall i | 0 <= i < |points| :: points[i] <= |trace| && visited[i].file == FileAt(first, trace[..points[i]]))
    && (forall i, j | 0 <= i < j < |points| :: points[i] <= points[j])
  }

  /** The session file is as the history describes it, now and at every point where saving could have been
      interrupted. */
  ghost predicate Follows(first: Option<string>, w: World) {
    && w.store.disk.file == FileAt(first, w.trace)
    && exists points :: Whole(first, w.store.visited, w.trace, points)
  }

  lemma WholeLater(first: Option<string>, visited: seq<Disk>, trace: seq<Event>, later: seq<Event>, points: seq<nat>)
    requires trace <= later && Whole(first, visited, trace, points)
    ensures Whole(first, visited, later, points)
  {
    hide FileAt;
    forall i | 0 <= i < |points| ensures later[..points[i]] == trace[..points[i]] {
    }
  }

  /** A history that saves nothing leaves the file as described. */
  lemma NothingSaved(first: Option<string>, w: World, later: World)
    requires Follows(first, w) && later.store == w.store && w.trace <= later.trace
    requires LastSaved(later.trace) == LastSaved(w.trace)
    ensures Follows(first, later)
  {
    hide LastSaved, Encode, Whole;
    var points :| Whole(first, w.store.visited, w.trace, points);
    WholeLater(first, w.store.visited, w.trace, later.trace, points);
  }

  lemma {:induction false} AskingSavesNothing(trace: seq<Event>, token: Token, n: nat)
    requires n <= MAX_INVENTORY_PAGES
    ensures LastSaved(Asked(trace, token, n)) == LastSaved(trace) && trace <= Asked(trace, token, n)
  {
    if n > 0 {
      AskingSavesNothing(trace, token, n - 1);
      LastSavedAppend(Asked(trace, token, n - 1), Sent(Inventory(n, token)));
    }
  }

  lemma InventorySavesNothing(gateway: Gateway, trace: seq<Event>, token: Token)
    ensures LastSaved(Endpoints(gateway, trace, token).0) == LastSaved(trace)
    ensures trace <= Endpoints(gateway, trace, token).0
  {
    hide Endpoints, LastSaved;
    InventoryIsExact(gateway, trace, token);
    var k :| 1 <= k <= MAX_INVENTORY_PAGES && Endpoints(gateway, trace, token).0 == Asked(trace, token, k);
    AskingSavesNothing(trace, token, k);
  }

  /** The disk states of one save show the file as it was or as it will be, never the one after the other way round. */
  ghost predicate TurnsOnce(run: SaveRun, before: Option<string>, after: Option<string>, k: nat) {
    && k <= |run.disks|
    && (forall i | 0 <= i < k :: run.disks[i].file == before)
    && (forall i | k <= i < |run.disks| :: run.disks[i].file == after)
    && (k < |run.disks| <==> run.committed)
  }

  lemma SaveTurnsOnce(disk: Disk, text: string, plan: SavePlan)
    ensures exists k :: TurnsOnce(RunSave(disk, text, plan), disk.file, Some(text), k)
  {
    var run := RunSave(disk, text, plan);
    if run.committed {
      assert TurnsOnce(run, disk.file, Some(text), 3);
    } else {
      assert TurnsOnce(run, disk.file, Some(text), |run.disks|);
    }
  }

  /** One save: the file and the history change together, whatever step of it fails or is interrupted. */
  lemma SaveFollows(fs: FileSystem, w: World, s: LocalSession, first: Option<string>)
    requires Follows(first, w)
    ensures var (store, saved, ok) := Save(fs, w.store, w.trace, s);
            && Follows(first, w.(store := store, trace := saved))
            && (saved == w.trace || saved == w.trace + [Committed(s)]) && (ok ==> saved != w.trace)
  {
    hide RunSave, Encode, LastSaved;
    var plan, text := fs.plans(w.store.saves), Encode(s);
    var run := RunSave(w.store.disk, text, plan);
    var (store, saved, _) := Save(fs, w.store, w.trace, s);
    SaveIsAtomic(w.store.disk, text, plan);
    SaveTurnsOnce(w.store.disk, text, plan);
    var k :| TurnsOnce(run, w.store.disk.file, Some(text), k);
    var points :| Whole(first, w.store.visited, w.trace, points);
    LastSavedAppend(w.trace, Committed(s));
    WholeLater(first, w.store.visited, w.trace, saved, points);
    assert saved[..|w.trace|] == w.trace;
    WholeSave(first, w.store.visited, saved, points, run, |w.trace|, k, text);
  }

  lemma WholeSave(first: Option<string>, visited: seq<Disk>, trace: seq<Event>, points: seq<nat>, run: SaveRun,
                  n: nat, k: nat, text: string)
    requires Whole(first, visited, trace, points) && forall i | 0 <= i < |points| :: points[i] <= n
    requires n <= |trace| && FileAt(first, trace) == (if run.committed then Some(text) else FileAt(first, trace[..n]))
    requires TurnsOnce(run, FileAt(first, trace[..n]), Some(text), k)
    ensures exists more :: Whole(first, visited + run.disks, trace, more)
  {
    hide FileAt;
    var added := seq(|run.disks|, i => if i < k then n else |trace|);
    var all, more := visited + run.disks, points + added;
    assert trace[..|trace|] == trace;
    forall i | 0 <= i < |more| ensures more[i] <= |trace| && all[i].file == FileAt(first, trace[..more[i]]) {
      if i >= |points| {
        assert all[i] == run.disks[i - |points|] && more[i] == added[i - |points|];
      }
    }
    assert Whole(first, all, trace, more);
  }

  lemma RotateFollows(env: Env, s: Sys, now: Instant, first: Option<string>)
    requires Follows(first, s.w)
    ensures Follows(first, Rotate(env, s, now).0.w)
  {
    hide Renew, Save, Encode, LastSaved, Follows;
    RenewalFollows(env, s.w, s.g.session, now, first);
  }

  /** A renewal, and the save that follows it. */
  lemma RenewalFollows(env: Env, w: World, s: LocalSession, now: Instant, first: Option<string>)
    requires Follows(first, w)
    ensures var (sent, renewed) := Renew(env.gateway, w.trace, s, now);
            && Follows(first, w.(trace := sent))
            && (renewed.Success? ==>
                  var (store, saved, _) := Save(env.fs, w.store, sent, renewed.value);
                  Follows(first, w.(store := store, trace := saved)))
  {
    hide Renew, Save, Encode, LastSaved, Follows;
    RenewSendsOnce(env.gateway, w.trace, s, now);
    LastSavedAppend(w.trace, Sent(Renewal(s.accessToken, s.refreshToken)));
    var (sent, renewed) := Renew(env.gateway, w.trace, s, now);
    NothingSaved(first, w, w.(trace := sent));
    if renewed.Success? {
      SaveFollows(env.fs, w.(trace := sent), renewed.value, first);
    }
  }

  lemma RediscoverFollows(env: Env, s: Sys, now: Instant, first: Option<string>)
    requires Follows(first, s.w)
    ensures Follows(first, Rediscover(env, s, now).0.w)
  {
    hide Endpoints, Snapshot, MarkIds, LastSaved, Follows;
    InventorySavesNothing(env.gateway, s.w.trace, s.g.session.accessToken);
    NothingSaved(first, s.w, Rediscover(env, s, now).0.w);
  }

  lemma MaintainFollows(env: Env, s: Sys, first: Option<string>)
    requires Follows(first, s.w)
    ensures Follows(first, Maintain(env, s).0.w)
  {
    hide Rotate, Rediscover, LastSaved, Follows;
    var now := env.clock(s.w.ticks);
    var s0 := s.(w := Tick(s.w));
    NothingSaved(first, s.w, s0.w);
    RotateFollows(env, s0, now, first);
    var s1 := if s.g.forceRenew || NeedsRenewal(s.g.session, now) then Rotate(env, s0, now).0 else s0;
    RediscoverFollows(env, s1, now, first);
  }

  /** A command saves nothing and sends one request. */
  lemma SubmitSends(env: Env, s: Sys, endpoint: G2Endpoint, c: Command, on: bool)
    ensures var w := Submit(env, s, endpoint, c, on).0.w;
            w.store == s.w.store && w.trace == SetOnOff(env.gateway, s.w.trace, endpoint, on, s.g.session.accessToken).0
  {
    hide MarkIds, SetOnOff;
  }

  lemma SubmitFollows(env: Env, s: Sys, endpoint: G2Endpoint, c: Command, on: bool, first: Option<string>)
    requires Follows(first, s.w)
    ensures Follows(first, Submit(env, s, endpoint, c, on).0.w)
  {
    hide Submit, LastSaved, Outcome, Follows;
    var r := Switch(endpoint, on, s.g.session.accessToken);
    SubmitSends(env, s, endpoint, c, on);
    SendAlwaysSends(env.gateway, s.w.trace, r);
    LastSavedAppend(s.w.trace, Sent(r));
    NothingSaved(first, s.w, Submit(env, s, endpoint, c, on).0.w);
  }

  /** Marking devices and closing read the clock and leave the file alone. */
  lemma OnlyTicks(first: Option<string>, w: World, later: World)
    requires Follows(first, w) && later == w.(ticks := later.ticks)
    ensures Follows(first, later)
  {
  }

  lemma ApplyFollows(env: Env, s: Sys, op: Op, first: Option<string>)
    requires Follows(first, s.w)
    ensures Follows(first, Apply(env, s, op).w)
  {
    hide Maintain, Submit, MarkIds, LastSaved, Follows;
    match op
    case DoClose => OnlyTicks(first, s.w, Close(env, s).w);
    case DoRefresh =>
      var s0 := s.(w := Tick(s.w), g := s.g.(nextRefreshAt := env.clock(s.w.ticks) + INVENTORY_FRESHNESS));
      OnlyTicks(first, s.w, s0.w);
      MaintainFollows(env, s0, first);
      var m := Maintain(env, s0).0;
      var r := Refresh(env, s).0;
      if r.w.ticks >= m.w.ticks && r.w == m.w.(ticks := r.w.ticks) {
        OnlyTicks(first, m.w, r.w);
      }
    case DoSet(c) =>
      MaintainFollows(env, s, first);
      var m := Maintain(env, s).0;
      if Problem(s.g, c).None? && Maintain(env, s).1.None? && c.deviceId in m.g.bindings {
        SubmitFollows(env, m, m.g.bindings[c.deviceId], c, c.desired.b, first);
      } else if Problem(s.g, c).None? {
        OnlyTicks(first, m.w, SetDesired(env, s, c).0.w);
      }
  }

  lemma OpenFollows(env: Env, w: World, first: Option<string>)
    requires Follows(first, w)
    ensures Follows(first, Open(env, w).0)
  {
    hide Renew, Save, Stored, Endpoints, Snapshot, LastSaved, Follows;
    var now := env.clock(w.ticks);
    OnlyTicks(first, w, Tick(w));
    var (loaded, session) := Load(env.fs, w.store, w.trace);
    var w0 := Tick(w).(trace := loaded);
    if session.Success? {
      LastSavedAppend(w.trace, Loaded(session.value));
      NothingSaved(first, Tick(w), w0);
      RenewalFollows(env, w0, session.value, now, first);
    }
    var (w1, current) := OpenSession(env, Tick(w), now);
    assert Follows(first, w1);
    if current.Success? {
      InventorySavesNothing(env.gateway, w1.trace, current.value.accessToken);
      NothingSaved(first, w1, w1.(trace := Endpoints(env.gateway, w1.trace, current.value.accessToken).0));
    }
  }

  lemma {:induction false} RunFollows(env: Env, s: Sys, ops: seq<Op>, first: Option<string>)
    requires Follows(first, s.w)
    ensures Follows(first, Run(env, s, ops).w)
  {
    hide Apply, Follows;
    if ops != [] {
      RunFollows(env, s, ops[..|ops| - 1], first);
      ApplyFollows(env, Run(env, s, ops[..|ops| - 1]), ops[|ops| - 1], first);
    }
  }

  /** A world in which nothing has happened yet. */
  predicate Untouched(w: World) {
    w.trace == [] && w.store.visited == []
  }

  /** The world that is left behind when `open` raised, or when it returned and these operations followed. */
  function LeftBehind(env: Env, w: World, ops: seq<Op>): World {
    var (world, g) := Open(env, w);
    if g.Failure? then world else Run(env, Sys(g.value, world), ops).w
  }

  /** Whether `open` raised or not, and whatever happened since, renewals refused, saves failing half-way and commands
      included, a restart finds the newest session that was saved, whole, or the provisioned file untouched if none
      was; it can read that session if and only if its document is within the size limit of `load`. */
  lemma RestartFindsLastSaved(env: Env, w: World, ops: seq<Op>)
    requires Untouched(w)
    ensures var r := LeftBehind(env, w, ops);
            var found := LoadFrom(r.store.disk, env.fs.limit);
            match LastSaved(r.trace)
            case None => r.store.disk.file == w.store.disk.file && found == LoadFrom(w.store.disk, env.fs.limit)
            case Some(s) =>
              && r.store.disk.file == Some(Encode(s))
              && found == if EncodedSize(s) <= MAX_SESSION_BYTES then Some(s) else None
  {
    hide LeftBehind, Encode, Decode, EncodedSize, Whole;
    RunFromUntouched(env, w, ops);
    var r := LeftBehind(env, w, ops);
    if LastSaved(r.trace).Some? {
      SessionRoundTrip(LastSaved(r.trace).value, env.fs.limit);
      EncodedSizeIsExact(LastSaved(r.trace).value);
    }
  }

  /** The file is the whole document of a session saved in this history. */
  ghost predicate IsSaved(file: Option<string>, trace: seq<Event>) {
    exists i :: 0 <= i < |trace| && trace[i].Committed? && file == Some(Encode(trace[i].session))
  }

  lemma UntouchedFollows(w: World)
    requires Untouched(w)
    ensures Follows(w.store.disk.file, w)
  {
    assert Whole(w.store.disk.file, w.store.visited, w.trace, []);
  }

  lemma RunFromUntouched(env: Env, w: World, ops: seq<Op>)
    requires Untouched(w)
    ensures Follows(w.store.disk.file, LeftBehind(env, w, ops))
  {
    hide Open, Run, Follows;
    UntouchedFollows(w);
    OpenFollows(env, w, w.store.disk.file);
    var (world, g) := Open(env, w);
    if g.Success? {
      RunFollows(env, Sys(g.value, world), ops, w.store.disk.file);
    }
  }

  /** Crash atomicity over whole runs, from `open` on: at every disk state that any save passed through, the session
      path held the provisioned file or the whole document of a session that was saved, as the history stood at some
      point; and later disk states show no earlier point. */
  lemma CrashFindsWholeSession(env: Env, w: World, ops: seq<Op>)
    requires Untouched(w)
    ensures var r := LeftBehind(env, w, ops);
            && (exists points :: Whole(w.store.disk.file, r.store.visited, r.trace, points))
            && (forall d | d in r.store.visited :: d.file == w.store.disk.file || IsSaved(d.file, r.trace))
  {
    hide LeftBehind, Encode;
    RunFromUntouched(env, w, ops);
    var r := LeftBehind(env, w, ops);
    var points :| Whole(w.store.disk.file, r.store.visited, r.trace, points);
    forall d | d in r.store.visited ensures d.file == w.store.disk.file || IsSaved(d.file, r.trace) {
      var j :| 0 <= j < |r.store.visited| && r.store.visited[j] == d;
      LastSavedIsCommitted(r.trace[..points[j]]);
    }
  }

  lemma {:induction false} LastSavedIsCommitted(events: seq<Event>)
    ensures LastSaved(events).Some? ==>
              exists i :: 0 <= i < |events| && events[i] == Committed(LastSaved(events).value)
  {
    if events != [] && !events[|events| - 1].Committed? {
      var front := events[..|events| - 1];
      LastSavedIsCommitted(front);
      if LastSaved(front).Some? {
        var i :| 0 <= i < |front| && front[i] == Committed(LastSaved(front).value);
        assert events[i] == front[i];
      }
    }
  }
}
