/** The short-lived cache of the grants a person holds. */
module GrantCache {
  import opened Prelude
  import opened Grants
  import Decimal

  const TTL_MS := 30_000

  datatype Entry = Entry(grants: seq<Grant>, expiresAt: int)

  datatype Triple = Triple(orgId: Id, userId: Id, authzVersion: nat)
  {
    /** Uuids have no colon. */
    predicate Plain() { ':' !in orgId && ':' !in userId }

    function Key(): string { orgId + ":" + userId + ":" + Decimal.Print(authzVersion) }
  }

  lemma KeyInjective(a: Triple, b: Triple)
    requires a.Plain() && b.Plain() && a.Key() == b.Key()
    ensures a == b
  {
    var x, y := a.userId + ":" + Decimal.Print(a.authzVersion), b.userId + ":" + Decimal.Print(b.authzVersion);
    assert a.Key() == a.orgId + ":" + x && b.Key() == b.orgId + ":" + y;
    KeySplit(':', a.orgId, b.orgId, x, y);
    KeySplit(':', a.userId, b.userId, Decimal.Print(a.authzVersion), Decimal.Print(b.authzVersion));
    Decimal.ParsePrint(a.authzVersion);
    Decimal.ParsePrint(b.authzVersion);
  }

  type Store = map<string, Entry>

  datatype Event =
    | Lookup(triple: Triple, at: int)
    | Save(triple: Triple, grants: seq<Grant>, at: int)
    | Clear(at: int)

  function Found(store: Store, key: string, now: int): Option<seq<Grant>> {
    if key in store && store[key].expiresAt > now then Some(store[key].grants) else None
  }

  /** What one event leaves in the store; a stale entry is dropped by the lookup that meets it. */
  function Next(store: Store, e: Event): Store {
    match e
    case Lookup(triple, at) => if Found(store, triple.Key(), at) == None then store - {triple.Key()} else store
    case Save(triple, grants, at) => store[triple.Key() := Entry(grants, at + TTL_MS)]
    case Clear(_) => map[]
  }

  function Replay(history: seq<Event>): Store {
    if history == [] then map[] else Next(Replay(history[..|history| - 1]), history[|history| - 1])
  }

  /** The clock never runs backwards and ids are uuids. */
  ghost predicate Sound(history: seq<Event>) {
    && (forall i, j :: 0 <= i < j < |history| ==> history[i].at <= history[j].at)
    && (forall e :: e in history && !e.Clear? ==> e.triple.Plain())
  }

  /** The list last saved for a triple since the cache was last cleared, with the instant of the save. */
  function LastSave(history: seq<Event>, triple: Triple): Option<(seq<Grant>, int)> {
    if history == [] then None
    else match history[|history| - 1]
      case Save(t, grants, at) =>
        if t == triple then Some((grants, at)) else LastSave(history[..|history| - 1], triple)
      case Clear(_) => None
      case Lookup(_, _) => LastSave(history[..|history| - 1], triple)
  }

  /** The store holds exactly the last saves, apart from stale ones that lookups have dropped. */
  lemma {:induction false} ReplayIsLastSave(history: seq<Event>, triple: Triple)
    requires Sound(history) && triple.Plain()
    ensures history == [] ==> LastSave(history, triple) == None
    ensures var store, last := Replay(history), LastSave(history, triple);
            && (triple.Key() in store ==>
                  last.Some? && store[triple.Key()] == Entry(last.value.0, last.value.1 + TTL_MS))
            && (triple.Key() !in store && last.Some? ==> last.value.1 + TTL_MS <= history[|history| - 1].at)
  {
    if history != [] {
      var before, e := history[..|history| - 1], history[|history| - 1];
      ReplayIsLastSave(before, triple);
      assert e in history;
      assert forall x :: x in before ==> x in history;
      assert forall i :: 0 <= i < |before| ==> before[i] == history[i];
      if !e.Clear? && e.triple.Key() == triple.Key() {
        KeyInjective(e.triple, triple);
      }
    }
  }

  /** The list last saved for the triple, less than thirty seconds ago. */
  function Remembered(history: seq<Event>, triple: Triple, now: int): Option<seq<Grant>> {
    var last := LastSave(history, triple);
    if last.Some? && now - last.value.1 < 30_000 then Some(last.value.0) else None
  }

  /** A hit is exactly that list. */
  lemma HitIsFreshLastSave(history: seq<Event>, triple: Triple, now: int)
    requires Sound(history) && triple.Plain()
    requires forall e :: e in history ==> e.at <= now
    ensures Found(Replay(history), triple.Key(), now) == Remembered(history, triple, now)
  {
    ReplayIsLastSave(history, triple);
    if history != [] {
      assert history[|history| - 1] in history;
    }
  }

  /** The list a question is decided on: the remembered one while it is fresh, else the one collected now. */
  function Used(history: seq<Event>, triple: Triple, now: int, collected: seq<Grant>): seq<Grant> {
    if Remembered(history, triple, now).Some? then Remembered(history, triple, now).value else collected
  }

  /** The store is what the history left in it, and the history is sound and over by `now`. */
  ghost predicate Matches(store: Store, history: seq<Event>, now: int) {
    Sound(history) && store == Replay(history) && forall e :: e in history ==> e.at <= now
  }

  /** One more event, not before the others, goes through the store it finds. */
  lemma OneMore(store: Store, history: seq<Event>, e: Event)
    requires Matches(store, history, e.at) && (!e.Clear? ==> e.triple.Plain())
    ensures Matches(Next(store, e), history + [e], e.at)
  {
    var more := history + [e];
    assert more[..|history|] == history;
    assert forall i :: 0 <= i < |history| ==> history[i] in history;
  }

  lemma LookedUp(store: Store, history: seq<Event>, triple: Triple, key: string, now: int)
    requires Matches(store, history, now) && triple.Plain() && key == triple.Key()
    ensures Matches(if Found(store, key, now) == None then store - {key} else store, history + [Lookup(triple, now)], now)
    ensures Found(store, key, now) == Remembered(history, triple, now)
  {
    OneMore(store, history, Lookup(triple, now));
    HitIsFreshLastSave(history, triple, now);
  }

  lemma Saved(store: Store, history: seq<Event>, triple: Triple, key: string, grants: seq<Grant>, now: int)
    requires Matches(store, history, now) && triple.Plain() && key == triple.Key()
    ensures Matches(store[key := Entry(grants, now + TTL_MS)], history + [Save(triple, grants, now)], now)
  {
    OneMore(store, history, Save(triple, grants, now));
  }

  lemma Cleared(store: Store, history: seq<Event>, now: int)
    requires Matches(store, history, now)
    ensures Matches(map[], history + [Clear(now)], now)
  {
    OneMore(store, history, Clear(now));
  }

  /** The module-level map behind the reads and writes. */
  class Cache {
    var store: Store
    ghost var history: seq<Event>

    /** The store matches the history, and the clock has reached `now`. */
    ghost predicate ValidAt(now: int) reads this {
      Matches(store, history, now)
    }

    constructor ()
      ensures history == [] && forall now :: ValidAt(now)
    {
      store, history := map[], [];
    }

    method GetCachedGrants(triple: Triple, now: int) returns (r: Option<seq<Grant>>)
      requires ValidAt(now) && triple.Plain()
      modifies this
      ensures ValidAt(now) && history == old(history) + [Lookup(triple, now)]
      ensures r == Remembered(old(history), triple, now)
    {
      var key := triple.Key();
      LookedUp(store, history, triple, key, now);
      history := history + [Lookup(triple, now)];
      if key !in store { return None; }
      if store[key].expiresAt <= now {
        store := store - {key};
        return None;
      }
      r := Some(store[key].grants);
    }

    method SetCachedGrants(triple: Triple, grants: seq<Grant>, now: int)
      requires ValidAt(now) && triple.Plain()
      modifies this
      ensures ValidAt(now) && history == old(history) + [Save(triple, grants, now)]
    {
      var key := triple.Key();
      Saved(store, history, triple, key, grants, now);
      history := history + [Save(triple, grants, now)];
      store := store[key := Entry(grants, now + TTL_MS)];
    }

    /** The resolver behind the cache: what it collects on a miss is remembered. */
    method Answer(triple: Triple, now: int, collected: seq<Grant>, q: Question, mode: ParamMode) returns (d: Decision)
      requires ValidAt(now) && triple.Plain()
      modifies this
      ensures ValidAt(now)
      ensures Decides(q, Used(old(history), triple, now, collected), mode, d)
      ensures history == old(history) + [Lookup(triple, now)]
                         || history == old(history) + [Lookup(triple, now)] + [Save(triple, collected, now)]
    {
      var all := GetCachedGrants(triple, now);
      if all == None {
        SetCachedGrants(triple, collected, now);
        all := Some(collected);
      }
      d := Run(q, triple.orgId, all.value, mode);
    }

    method ClearGrantCache(now: int)
      requires ValidAt(now)
      modifies this
      ensures ValidAt(now) && history == old(history) + [Clear(now)]
    {
      Cleared(store, history, now);
      history := history + [Clear(now)];
      store := map[];
    }
  }
}
