/** The keyring: credentials per (tenant, channel), encrypted under a fresh data key each time they
    are set. Over any history it behaves as a plain map, whatever its cache holds. */
module Keyring {
  import opened Common
  import opened Envelope
  import opened Credentials
  import Cache = DekCache
  import R = RotateKek

  /** A row that decrypts to `text` under `kek`. */
  predicate Stores(kek: Bytes, row: CredRow, text: Bytes) {
    Decrypt(kek, row.wrapped, row.encrypted) == Some(text)
  }

  class Keyring {
    const repo: CredentialsRepo
    const cache: Cache.Cache
    const kek: Bytes
    const version: int
    ghost const origin: Bytes        // the first key of the history
    ghost var history: seq<Event>    // all that happened to the table, also before this process started

    constructor (repo: CredentialsRepo, cache: Cache.Cache, kek: Bytes, version: int,
                 ghost origin: Bytes, ghost past: seq<Event>)
      ensures this.repo == repo && this.cache == cache && this.kek == kek && this.version == version
      ensures this.origin == origin && history == past
    {
      this.repo, this.cache, this.kek, this.version := repo, cache, kek, version;
      this.origin, this.history := origin, past;
    }

    /** The table is what the history made of it, under the key this process has. */
    ghost predicate Tracks()
      reads this, repo
    {
      IsHistory(origin, history) && Exec(origin, history) == Service(repo.table, kek)
    }

    ghost method Record(e: Event)
      modifies this`history
      ensures history == old(history) + [e]
      ensures IsHistory(origin, old(history)) && Happens(Exec(origin, old(history)), e) ==>
                IsHistory(origin, history) && Exec(origin, history) == After(Exec(origin, old(history)), e)
    {
      ghost var longer := history + [e];
      assert longer[..|longer| - 1] == history;
      history := longer;
    }

    /** A new data key, and its wrapping under the key-encryption key. */
    method GenerateDek() returns (dek: array<byte>, wrapped: Option<Blob>)
      ensures fresh(dek) && dek.Length == 32
      ensures wrapped.Some? <==> CipherKey(kek)
      ensures wrapped.Some? ==> Open(kek, wrapped.value) == Some(dek[..])
    {
      dek := new byte[32];
      var nonce: Nonce := *;
      wrapped := Seal(kek, nonce, dek[..]);
    }

    method SetCredentials(s: Slot, text: Bytes) returns (ok: bool)
      requires cache.Valid()
      modifies repo`table, cache`m, cache.buffers, this`history
      ensures cache.Valid() && (old(Tracks()) ==> Tracks())
      ensures ok ==> s in repo.table && history == old(history) + [Set(s, text, repo.table[s])]
      ensures !ok ==> repo.table == old(repo.table) && history == old(history)
      ensures ok ==> s in repo.table && repo.table == old(repo.table)[s := repo.table[s]]
      ensures ok ==> Stores(kek, repo.table[s], text) && repo.table[s].version == version
      ensures repo.reliable ==> (ok <==> |kek| == 16 || |kek| == 24 || |kek| == 32)
      ensures ok ==> s.tenant !in cache.m
    {
      var dek, wrapped := GenerateDek();
      if wrapped.None? { return false; }
      var nonce: Nonce := *;
      var randomness := StoreAnswers(repo.reliable);
      var encrypted := if randomness then Encrypt(kek, wrapped.value, nonce, text) else None;
      if encrypted.None? {
        Zero(dek);
        return false;
      }
      ok := repo.Upsert(s, CredRow(wrapped.value, encrypted.value, version));
      Zero(dek);
      if ok {
        cache.Invalidate(s.tenant);
        Record(Set(s, text, repo.table[s]));
      }
    }

    /** The cached data key is refreshed but never decides the answer, which is a function of the
        table and the key-encryption key alone - so the last value set, as long as only the keyring and
        rotations wrote the table; a store failure answers Broken too. */
    method ResolveCredentials(s: Slot, now: int) returns (answer: Answer)
      requires cache.Valid()
      modifies cache`m, cache`buffers, cache.buffers
      ensures cache.Valid()
      ensures answer == Resolve(repo.table, kek, s) || (!repo.reliable && answer == Broken)
      ensures Tracks() ==> answer == LastSet(history, s) || (!repo.reliable && answer == Broken)
      ensures answer.Plain? ==>
                && s in repo.table && s.tenant in cache.m && cache.m[s.tenant].version == repo.table[s].version
                && (s.tenant !in old(cache.m) ==> cache.m[s.tenant].expires == now + cache.ttl)
    {
      if Tracks() { ResolvesLastSet(origin, history, s); }
      var row := repo.Get(s);
      if row.None? { return Broken; }
      if row.value.None? { return NotFound; }
      var r := row.value.value;
      var hit := cache.Get(s.tenant, r.version, now);
      if hit.None? {
        var plain := Open(kek, r.wrapped);
        if plain.None? { return Broken; }
        var dek := new byte[|plain.value|](i requires 0 <= i < |plain.value| => plain.value[i]);
        cache.Put(s.tenant, dek, r.wrapped, r.version, now);
      }
      match Decrypt(kek, r.wrapped, r.encrypted) {
        case Some(text) => return Plain(text);
        case None => return Broken;
      }
    }

    method Delete(s: Slot) returns (ok: bool)
      requires cache.Valid()
      modifies repo`table, cache`m, cache.buffers, this`history
      ensures cache.Valid() && (old(Tracks()) ==> Tracks())
      ensures repo.table == if ok then old(repo.table) - {s} else old(repo.table)
      ensures history == if ok then old(history) + [Remove(s)] else old(history)
      ensures repo.reliable ==> ok
      ensures ok ==> s.tenant !in cache.m
    {
      ok := repo.Delete(s);
      if ok {
        cache.Invalidate(s.tenant);
        Record(Remove(s));
      }
    }

    method Invalidate(tenant: Tenant)
      requires cache.Valid()
      modifies cache`m, cache.buffers
      ensures cache.Valid() && tenant !in cache.m
    {
      cache.Invalidate(tenant);
    }
  }

  // ---- histories ----

  /** What can happen to the credentials: `row` is what a Set wrote, `table` what a complete rotation
      left, after which the service restarts under `to`. Resolving, invalidating and the expiry of
      cache entries do not touch the table. */
  datatype Event =
    | Set(slot: Slot, text: Bytes, row: CredRow)
    | Remove(slot: Slot)
    | RotateAndRestart(to: Bytes, table: Table)

  datatype Service = Service(table: Table, kek: Bytes)

  ghost predicate Happens(sv: Service, e: Event) {
    match e
    case Set(_, text, row) => Stores(sv.kek, row, text)
    case Remove(_) => true
    case RotateAndRestart(to, table) => IsKek(to) && to != sv.kek && R.Complete(R.Keys(sv.kek, to), sv.table, table)
  }

  function After(sv: Service, e: Event): Service {
    match e
    case Set(s, _, row) => sv.(table := sv.table[s := row])
    case Remove(s) => sv.(table := sv.table - {s})
    case RotateAndRestart(to, table) => Service(table, to)
  }

  function Exec(kek: Bytes, history: seq<Event>): Service {
    if history == [] then Service(map[], kek)
    else After(Exec(kek, history[..|history| - 1]), history[|history| - 1])
  }

  ghost predicate IsHistory(kek: Bytes, history: seq<Event>) {
    history == [] ||
    (IsHistory(kek, history[..|history| - 1])
     && Happens(Exec(kek, history[..|history| - 1]), history[|history| - 1]))
  }

  /** The map the keyring stands for: the last value set and not removed since. */
  function LastSet(history: seq<Event>, s: Slot): Answer {
    if history == [] then NotFound else
    match history[|history| - 1]
    case Set(slot, text, _) => if slot == s then Plain(text) else LastSet(history[..|history| - 1], s)
    case Remove(slot) => if slot == s then NotFound else LastSet(history[..|history| - 1], s)
    case RotateAndRestart(_, _) => LastSet(history[..|history| - 1], s)
  }

  /** Over every history of sets, removals and rotations, resolving answers the last value set. */
  lemma {:induction false} ResolvesLastSet(kek: Bytes, history: seq<Event>, s: Slot)
    requires IsHistory(kek, history)
    ensures var sv := Exec(kek, history); Resolve(sv.table, sv.kek, s) == LastSet(history, s)
  {
    if history != [] {
      var front, e := history[..|history| - 1], history[|history| - 1];
      ResolvesLastSet(kek, front, s);
      var sv := Exec(kek, front);
      if e.RotateAndRestart? && s in sv.table {
        NothingIsBroken(kek, front, s);
      }
    }
  }

  lemma {:induction false} NothingIsBroken(kek: Bytes, history: seq<Event>, s: Slot)
    requires IsHistory(kek, history) && s in Exec(kek, history).table
    ensures Resolve(Exec(kek, history).table, Exec(kek, history).kek, s).Plain?
  {
    if history != [] {
      var front, e := history[..|history| - 1], history[|history| - 1];
      if s in Exec(kek, front).table { NothingIsBroken(kek, front, s); }
    }
  }
}
