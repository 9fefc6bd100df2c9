/** Server-side sessions in a shared key-value table. Operations load, change and save records in separate steps;
    the store may fail silently, and handlers in several processes interleave. */
module Sessions {

  datatype Option<T> = None | Some(value: T)

  /** The part of a session record that decides validity. */
  datatype Data = Data(revoked: bool, expiresAt: int)

  type Table = map<string, Data>

  /** A save: whether it took effect, and whether it was reported to have. The table may swallow a
      failure, or report one after the write took effect. */
  datatype Save = Save(effective: bool, reported: bool)

  function Load(t: Table, id: string, up: bool): Option<Data> {
    if up && id != "" && id in t then Some(t[id]) else None
  }

  function Revoked(d: Data): Data {
    d.(revoked := true)
  }

  /** INSERT OR REPLACE, when it takes effect. */
  function Saved(t: Table, id: string, d: Data, effective: bool): Table {
    if effective && id != "" then t[id := d] else t
  }

  function Deleted(t: Table, id: string, effective: bool): Table {
    if effective then t - {id} else t
  }

  /** The record exists and is not revoked. */
  predicate Alive(t: Table, id: string) {
    id in t && !t[id].revoked
  }

  /** Validation succeeds. An expiry time of 0 counts as expired. */
  predicate Validates(t: Table, id: string, now: int) {
    id != "" && Alive(t, id) && t[id].expiresAt != 0 && now < t[id].expiresAt
  }

  class SessionManager {
    const ttl: int
    var table: Table

    constructor (ttl: int)
      ensures table == map[] && this.ttl == if ttl < 60 then 60 else ttl
    {
      this.ttl := if ttl < 60 then 60 else ttl;
      table := map[];
    }

    /** id is freshly drawn; "" is returned when the save is reported to have failed. */
    method CreateSession(id: string, now: int, save: Save) returns (r: string)
      requires id != "" && id !in table && now >= 0
      modifies this`table
      ensures r == if save.reported then id else ""
      ensures table == Saved(old(table), id, Data(false, now + ttl), save.effective)
      ensures table == if save.effective then old(table)[id := Data(false, now + ttl)] else old(table)
      ensures save.effective ==> forall t :: now <= t < now + ttl ==> Validates(table, id, t)
    {
      table := Saved(table, id, Data(false, now + ttl), save.effective);
      return if save.reported then id else "";
    }

    /** An expired record that is not revoked is deleted on the way. */
    method ValidateSession(id: string, now: int, up: bool, deletes: bool) returns (ok: bool)
      modifies this`table
      ensures ok <==> up && Validates(old(table), id, now)
      ensures ok <==>
        up && id != "" && id in old(table) && !old(table)[id].revoked && old(table)[id].expiresAt != 0 && now < old(table)[id].expiresAt
      ensures forall other :: other != id ==>
        (other in table <==> other in old(table)) && (other in table ==> table[other] == old(table)[other])
      ensures table == Deleted(old(table), id, deletes && up && id != "" && Alive(old(table), id) && !ok)
    {
      var data := Load(table, id, up);
      if data.None? || data.value.revoked {
        return false;
      }
      if data.value.expiresAt == 0 || now >= data.value.expiresAt {
        table := Deleted(table, id, deletes);
        return false;
      }
      return true;
    }

    /** Marks the record revoked, then deletes it; results are not looked at. */
    method DestroySession(id: string, up: bool, save: Save, deletes: bool)
      modifies this`table
      ensures Alive(table, id) <==> Alive(old(table), id) && (id == "" || (!deletes && !(up && save.effective)))
      ensures forall other :: other != id ==>
        (other in table <==> other in old(table)) && (other in table ==> table[other] == old(table)[other])
    {
      if id == "" {
        return;
      }
      var data := Load(table, id, up);
      if data.Some? {
        table := Saved(table, id, Revoked(data.value), save.effective);
      }
      table := Deleted(table, id, deletes);
    }

    /** Revokes the old session, creates a new one, then saves the old record again with a link to the new one.
        A returned id does not mean the old session is gone: exactly when neither save of the old record took effect. */
    method RotateSession(oldId: string, newId: string, now: int, up: bool, revoke: Save, create: Save, backfill: Save) returns (r: string)
      requires newId != "" && newId !in table && newId != oldId && now >= 0
      modifies this`table
      ensures r == if oldId != "" && up && oldId in old(table) && create.reported then newId else ""
      ensures r != "" ==> (Alive(table, oldId) <==> Alive(old(table), oldId) && !revoke.effective && !backfill.effective)
      ensures r != "" && create.effective ==> forall t :: now <= t < now + ttl ==> Validates(table, newId, t)
      ensures forall other :: other != oldId && other != newId ==>
        (other in table <==> other in old(table)) && (other in table ==> table[other] == old(table)[other])
    {
      var data := Load(table, oldId, up);
      if data.None? {
        return "";
      }
      var revoked := Revoked(data.value);
      table := Saved(table, oldId, revoked, revoke.effective);
      r := CreateSession(newId, now, create);
      if r == "" {
        return "";
      }
      table := Saved(table, oldId, revoked, backfill.effective);
    }
  }

  // ---- all interleavings ----

  /** A handler between two store accesses. stale: the data it loaded; hit: one of its writes to id took effect. */
  datatype Task =
    | DestroyLoad(id: string)
    | DestroySave(id: string, stale: Data)
    | DestroyDelete(id: string, hit: bool)
    | RotateLoad(id: string)
    | RotateRevoke(id: string, stale: Data)
    | RotateCreate(id: string, stale: Data, hit: bool)
    | RotateBackfill(id: string, stale: Data, hit: bool)

  /** known: every id a session or a call has had; ended: ids whose destroy or rotate returned after a write that took effect. */
  datatype State = State(table: Table, tasks: seq<Task>, known: set<string>, ended: set<string>)

  /** Advance performs the next access of a task: access says whether it works, save how a creation fares. */
  datatype Event =
    | Create(id: string, expiresAt: int, effective: bool)
    | BeginDestroy(id: string)
    | BeginRotate(id: string)
    | Advance(i: nat, access: bool, newId: string, expiresAt: int, save: Save)
    | Remove(id: string) // expired records deleted by validation or cleanup
    | Crash(i: nat)

  predicate Enabled(s: State, e: Event) {
    match e
    case Create(id, _, _) => id != "" && id !in s.known
    case BeginDestroy(id) => id != ""
    case BeginRotate(id) => id != ""
    case Advance(i, _, newId, _, save) => i < |s.tasks| && (s.tasks[i].RotateCreate? ==> newId != "" && newId !in s.known)
    case Remove(_) => true
    case Crash(i) => i < |s.tasks|
  }

  function Without(tasks: seq<Task>, i: nat): seq<Task>
    requires i < |tasks|
  {
    tasks[..i] + tasks[i + 1..]
  }

  function Return(s: State, i: nat, hit: bool): State
    requires i < |s.tasks|
  {
    s.(tasks := Without(s.tasks, i), ended := if hit then s.ended + {s.tasks[i].id} else s.ended)
  }

  function Step(s: State, e: Event): State
    requires Enabled(s, e)
  {
    match e
    case Create(id, expiresAt, effective) => s.(table := Saved(s.table, id, Data(false, expiresAt), effective), known := s.known + {id})
    case BeginDestroy(id) => s.(tasks := s.tasks + [DestroyLoad(id)], known := s.known + {id})
    case BeginRotate(id) => s.(tasks := s.tasks + [RotateLoad(id)], known := s.known + {id})
    case Remove(id) => s.(table := s.table - {id})
    case Crash(i) => s.(tasks := Without(s.tasks, i))
    case Advance(i, access, newId, expiresAt, save) => Advanced(s, i, access, newId, expiresAt, save)
  }

  function Advanced(s: State, i: nat, access: bool, newId: string, expiresAt: int, save: Save): State
    requires i < |s.tasks|
  {
    match s.tasks[i]
    case DestroyLoad(id) =>
      var data := Load(s.table, id, access);
      s.(tasks := s.tasks[i := if data.Some? then DestroySave(id, data.value) else DestroyDelete(id, false)])
    case DestroySave(id, stale) => s.(table := Saved(s.table, id, Revoked(stale), access), tasks := s.tasks[i := DestroyDelete(id, access)])
    case DestroyDelete(id, hit) => Return(s.(table := Deleted(s.table, id, access)), i, hit || access)
    case RotateLoad(id) =>
      var data := Load(s.table, id, access);
      if data.Some? then s.(tasks := s.tasks[i := RotateRevoke(id, data.value)]) else Return(s, i, false)
    case RotateRevoke(id, stale) => s.(table := Saved(s.table, id, Revoked(stale), access),
        tasks := s.tasks[i := RotateCreate(id, stale, access)])
    case RotateCreate(id, stale, hit) =>
      var s' := s.(table := Saved(s.table, newId, Data(false, expiresAt), save.effective), known := s.known + {newId});
      if save.reported then s'.(tasks := s.tasks[i := RotateBackfill(id, stale, hit)]) else Return(s', i, hit)
    case RotateBackfill(id, stale, hit) => Return(s.(table := Saved(s.table, id, Revoked(stale), access)), i, hit || access)
  }

  predicate Hit(task: Task) {
    (task.DestroyDelete? || task.RotateCreate? || task.RotateBackfill?) && task.hit
  }

  ghost predicate Inv(s: State) {
    && (forall id :: id in s.table || id in s.ended ==> id in s.known)
    && (forall i :: 0 <= i < |s.tasks| ==> s.tasks[i].id in s.known && s.tasks[i].id != "")
    && (forall id :: id in s.ended ==> !Alive(s.table, id))
    && (forall i :: 0 <= i < |s.tasks| && Hit(s.tasks[i]) ==> !Alive(s.table, s.tasks[i].id))
  }

  /** Nothing brings a known id back to life: later saves of stale data are revoked, creations use fresh ids. */
  lemma DeadStaysDead(s: State, e: Event, id: string)
    requires Enabled(s, e) && id in s.known && !Alive(s.table, id)
    ensures id in Step(s, e).known && !Alive(Step(s, e).table, id)
  {
  }

  lemma ReturnKeepsInv(s: State, i: nat, hit: bool)
    requires Inv(s) && i < |s.tasks| && (hit ==> !Alive(s.table, s.tasks[i].id))
    ensures Inv(Return(s, i, hit))
  {
  }

  lemma ReplaceKeepsInv(s: State, i: nat, task: Task)
    requires Inv(s) && i < |s.tasks| && task.id == s.tasks[i].id && (Hit(task) ==> !Alive(s.table, task.id))
    ensures Inv(s.(tasks := s.tasks[i := task]))
  {
  }

  /** A write that keeps dead ids dead. */
  lemma TableKeepsInv(s: State, t: Table, known: set<string>)
    requires Inv(s) && s.known <= known
    requires forall id :: id in t ==> id in known
    requires forall id :: id in s.known && !Alive(s.table, id) ==> !Alive(t, id)
    ensures Inv(s.(table := t, known := known))
  {
  }

  lemma AdvanceKeepsInv(s: State, i: nat, access: bool, newId: string, expiresAt: int, save: Save)
    requires Inv(s) && Enabled(s, Advance(i, access, newId, expiresAt, save))
    ensures Inv(Advanced(s, i, access, newId, expiresAt, save))
  {
    match s.tasks[i]
    case DestroyLoad(id) =>
    case RotateLoad(id) =>
    case DestroySave(id, stale) =>
      var t := Saved(s.table, id, Revoked(stale), access);
      TableKeepsInv(s, t, s.known);
      ReplaceKeepsInv(s.(table := t), i, DestroyDelete(id, access));
    case DestroyDelete(id, hit) =>
      var t := Deleted(s.table, id, access);
      TableKeepsInv(s, t, s.known);
      ReturnKeepsInv(s.(table := t), i, hit || access);
    case RotateRevoke(id, stale) =>
      var t := Saved(s.table, id, Revoked(stale), access);
      TableKeepsInv(s, t, s.known);
      ReplaceKeepsInv(s.(table := t), i, RotateCreate(id, stale, access));
    case RotateCreate(id, stale, hit) =>
      var t := Saved(s.table, newId, Data(false, expiresAt), save.effective);
      TableKeepsInv(s, t, s.known + {newId});
      if save.reported {
        ReplaceKeepsInv(s.(table := t, known := s.known + {newId}), i, RotateBackfill(id, stale, hit));
      } else {
        ReturnKeepsInv(s.(table := t, known := s.known + {newId}), i, hit);
      }
    case RotateBackfill(id, stale, hit) =>
      var t := Saved(s.table, id, Revoked(stale), access);
      TableKeepsInv(s, t, s.known);
      ReturnKeepsInv(s.(table := t), i, hit || access);
  }

  lemma {:induction false} StepKeepsInv(s: State, e: Event)
    requires Inv(s) && Enabled(s, e)
    ensures Inv(Step(s, e))
  {
    match e
    case Advance(i, access, newId, expiresAt, save) => AdvanceKeepsInv(s, i, access, newId, expiresAt, save);
    case Create(id, expiresAt, effective) => TableKeepsInv(s, Saved(s.table, id, Data(false, expiresAt), effective), s.known + {id});
    case Remove(id) => TableKeepsInv(s, s.table - {id}, s.known);
    case _ =>
  }

  const EMPTY := State(map[], [], {}, {})

  ghost predicate IsRun(states: seq<State>, events: seq<Event>) {
    && |states| == |events| + 1 && states[0] == EMPTY
    && forall k :: 0 <= k < |events| ==> Enabled(states[k], events[k]) && states[k + 1] == Step(states[k], events[k])
  }

  lemma {:induction false} RunKeepsInv(states: seq<State>, events: seq<Event>, k: nat)
    requires IsRun(states, events) && k < |states|
    ensures Inv(states[k])
  {
    if k > 0 {
      RunKeepsInv(states, events, k - 1);
      StepKeepsInv(states[k - 1], events[k - 1]);
    }
  }

  lemma {:induction false} EndedGrows(states: seq<State>, events: seq<Event>, k: nat, m: nat)
    requires IsRun(states, events) && k <= m < |states|
    ensures states[k].ended <= states[m].ended
    decreases m
  {
    if k < m {
      EndedGrows(states, events, k, m - 1);
    }
  }

  /** Once a destroy or rotate of an id has returned with at least one of its writes in effect, no validation of the id
      ever succeeds again, in any interleaving, whatever stale data is saved back later. */
  lemma EndedNeverValidates(states: seq<State>, events: seq<Event>, k: nat, m: nat, id: string, now: int)
    requires IsRun(states, events) && k <= m < |states| && id in states[k].ended
    ensures !Validates(states[m].table, id, now)
  {
    EndedGrows(states, events, k, m);
    RunKeepsInv(states, events, m);
  }

  /** How handlers come and go: a destroy or a rotate begins by loading its record, a crash ends it where it is, and an expired
      record that is removed is gone, none of which touches another task or record. */
  lemma ComeAndGo(s: State, e: Event)
    requires Enabled(s, e)
    ensures e.BeginDestroy? ==> Step(s, e).tasks == s.tasks + [DestroyLoad(e.id)] && Step(s, e).table == s.table
    ensures e.BeginRotate? ==> Step(s, e).tasks == s.tasks + [RotateLoad(e.id)] && Step(s, e).table == s.table
    ensures e.Crash? ==> Step(s, e).tasks == s.tasks[..e.i] + s.tasks[e.i + 1..] && Step(s, e).table == s.table
    ensures e.Remove? ==> e.id !in Step(s, e).table && Step(s, e).tasks == s.tasks
    ensures e.Remove? ==> forall other :: other != e.id ==> (other in Step(s, e).table <==> other in s.table)
  {
  }

  /** The accesses of a destroy and of a rotate, in order: what is saved is what was loaded, marked revoked; a record that cannot be
      loaded is deleted all the same by a destroy and ends a rotate; a rotate that cannot create its session ends. */
  lemma NextAccess(s: State, e: Event)
    requires Enabled(s, e) && e.Advance?
    ensures var task, s' := s.tasks[e.i], Step(s, e);
      var data := if e.access && task.id != "" && task.id in s.table then Some(s.table[task.id]) else None;
      && (task.DestroyLoad? && data != None ==> s'.table == s.table && s'.tasks == s.tasks[e.i := DestroySave(task.id, data.value)])
      && (task.DestroyLoad? && data == None ==> s'.table == s.table && s'.tasks == s.tasks[e.i := DestroyDelete(task.id, false)])
      && (task.RotateLoad? && data != None ==> s'.table == s.table && s'.tasks == s.tasks[e.i := RotateRevoke(task.id, data.value)])
      && (task.RotateLoad? && data == None ==> s'.table == s.table && s'.tasks == s.tasks[..e.i] + s.tasks[e.i + 1..])
      && (task.DestroySave? || task.RotateRevoke? || task.RotateBackfill? ==>
            s'.table == if e.access && task.id != "" then s.table[task.id := Data(true, task.stale.expiresAt)] else s.table)
      && (task.DestroySave? ==> s'.tasks == s.tasks[e.i := DestroyDelete(task.id, e.access)])
      && (task.DestroyDelete? ==> s'.table == if e.access then s.table - {task.id} else s.table)
      && (task.RotateRevoke? ==> s'.tasks == s.tasks[e.i := RotateCreate(task.id, task.stale, e.access)])
      && (task.RotateCreate? && e.save.reported ==> s'.tasks == s.tasks[e.i := RotateBackfill(task.id, task.stale, task.hit)])
      && (task.RotateCreate? && !e.save.reported ==> s'.tasks == s.tasks[..e.i] + s.tasks[e.i + 1..])
      && (task.RotateCreate? ==>
            s'.table == if e.save.effective then s.table[e.newId := Data(false, e.expiresAt)] else s.table)
  {
  }

  /** The last step of a destroy, or of a rotate that returns a new id. */
  predicate Returning(s: State, e: Event)
    requires Enabled(s, e)
  {
    e.Advance? && (s.tasks[e.i].DestroyDelete? || s.tasks[e.i].RotateBackfill?)
  }

  /** A destroy or rotate that returns is over, and its id has ended exactly when it had before or a write of its own took
      effect, the last one or an earlier one. */
  lemma ReturnEndsIff(s: State, e: Event)
    requires Enabled(s, e) && Returning(s, e)
    ensures var task, s' := s.tasks[e.i], Step(s, e);
      && |s'.tasks| == |s.tasks| - 1
      && (task.id in s'.ended <==> task.id in s.ended || task.hit || e.access)
  {
  }

  /** In every run: once a destroy has returned, or a rotate has returned its new id, with a write in effect, no later
      validation of the old id succeeds. */
  lemma SuccessfulReturnEnds(states: seq<State>, events: seq<Event>, k: nat, m: nat, now: int)
    requires IsRun(states, events) && k < |events| && k < m < |states|
    requires Returning(states[k], events[k])
    requires events[k].access || states[k].tasks[events[k].i].hit
    ensures !Validates(states[m].table, states[k].tasks[events[k].i].id, now)
  {
    ReturnEndsIff(states[k], events[k]);
    EndedNeverValidates(states, events, k + 1, m, states[k].tasks[events[k].i].id, now);
  }

  // ---- silent failures ----

  lemma RunSnoc(states: seq<State>, events: seq<Event>, e: Event) returns (states': seq<State>, events': seq<Event>)
    requires IsRun(states, events) && Enabled(states[|events|], e)
    ensures IsRun(states', events') && events' == events + [e] && states'[|events'|] == Step(states[|events|], e)
  {
    states', events' := states + [Step(states[|events|], e)], events + [e];
  }

  /** Advancing the only task. */
  function Next(access: bool, newId: string): Event {
    Advance(0, access, newId, 100, Save(true, true))
  }

  /** A live session "a" whose rotation has loaded the record. */
  lemma RotationLoaded() returns (states: seq<State>, events: seq<Event>)
    ensures IsRun(states, events) && |events| == 3 && events[1] == BeginRotate("a")
    ensures states[3] == State(map["a" := Data(false, 100)], [RotateRevoke("a", Data(false, 100))], {"a"}, {})
  {
    states, events := RunSnoc([EMPTY], [], Create("a", 100, true));
    assert states[1].known == {"a"};
    states, events := RunSnoc(states, events, BeginRotate("a"));
    assert states[2].known == {"a"};
    states, events := RunSnoc(states, events, Next(true, "b"));
  }

  /** A rotate whose two saves of the old record fail silently returns, and the old session still validates. */
  lemma SilentFailureKeepsSession() returns (states: seq<State>, events: seq<Event>)
    ensures IsRun(states, events) && |events| == 6 && events[1] == BeginRotate("a")
    ensures states[6].tasks == [] && Alive(states[6].table, "b") && Validates(states[6].table, "a", 50)
  {
    var data := Data(false, 100);
    states, events := RotationLoaded();
    states, events := RunSnoc(states, events, Next(false, "b"));
    assert states[4].tasks == [RotateCreate("a", data, false)];
    states, events := RunSnoc(states, events, Next(false, "b"));
    assert states[5].tasks == [RotateBackfill("a", data, false)];
    states, events := RunSnoc(states, events, Next(false, "b"));
    assert states[6].tasks == [];
  }
}
