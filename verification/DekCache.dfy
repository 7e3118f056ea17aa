/** The in-memory cache of unwrapped data keys, one entry per tenant, with key buffers that are
    overwritten when they leave it. */
module DekCache {
  import opened Common
  import opened Envelope
  import opened Credentials

  /** `dek` is the live key buffer. */
  datatype Entry = Entry(dek: array<byte>, wrapped: Blob, version: int, expires: int)

  ghost function DeksOf(m: map<Tenant, Entry>): set<array<byte>> { set t | t in m :: m[t].dek }

  lemma DeksAfterPut(m: map<Tenant, Entry>, tenant: Tenant, e: Entry)
    requires tenant !in m
    ensures DeksOf(m[tenant := e]) == DeksOf(m) + {e.dek}
  {
    var m' := m[tenant := e];
    forall b | b in DeksOf(m) ensures b in DeksOf(m') {
      var t :| t in m && m[t].dek == b;
      assert m'[t].dek == b;
    }
    assert m'[tenant].dek == e.dek;
  }

  lemma DeksAfterDrop(m: map<Tenant, Entry>, tenant: Tenant)
    requires tenant in m && forall t :: t in m && m[t].dek == m[tenant].dek ==> t == tenant
    ensures DeksOf(m - {tenant}) == DeksOf(m) - {m[tenant].dek}
  {
    var m' := m - {tenant};
    forall b | b in DeksOf(m) && b != m[tenant].dek ensures b in DeksOf(m') {
      var t :| t in m && m[t].dek == b;
      assert m'[t].dek == b;
    }
  }

  class Cache {
    var m: map<Tenant, Entry>
    const ttl: int
    ghost var buffers: set<array<byte>>  // every buffer ever put

    constructor (ttl: int)
      ensures Valid() && m == map[] && buffers == {} && fresh(buffers)
      ensures this.ttl == if ttl <= 0 then 300 else ttl
    {
      this.ttl := if ttl <= 0 then 300 else ttl;
      m := map[];
      buffers := {};
    }

    ghost function Live(): set<array<byte>>
      reads this
    {
      DeksOf(m)
    }

    /** Entries do not share buffers, and a buffer that left the cache holds zeros. */
    ghost predicate Valid()
      reads this, buffers
    {
      && Live() <= buffers
      && (forall t, u :: t in m && u in m && m[t].dek == m[u].dek ==> t == u)
      && (forall b :: b in buffers && b !in Live() ==> AllZero(b))
    }

    /** A hit needs an entry that has not expired and carries the asked version; a stale entry goes. */
    method Get(tenant: Tenant, version: int, now: int) returns (hit: Option<Entry>)
      requires Valid()
      modifies this`m, buffers
      ensures Valid() && buffers == old(buffers)
      ensures hit.Some? <==> tenant in old(m) && now <= old(m)[tenant].expires && old(m)[tenant].version == version
      ensures hit.Some? ==> hit.value == old(m)[tenant] && m == old(m)
      ensures hit.None? ==> m == old(m) - {tenant}
      ensures forall b :: b in Live() ==> b[..] == old(b[..])
    {
      if tenant !in m { return None; }
      var e := m[tenant];
      if now > e.expires || e.version != version {
        Drop(tenant);
        return None;
      }
      return Some(e);
    }

    /** The buffer put must not be one the cache has seen: the replaced entry's buffer is zeroed. */
    method Put(tenant: Tenant, dek: array<byte>, wrapped: Blob, version: int, now: int)
      requires Valid() && dek !in buffers
      modifies this`m, this`buffers, buffers
      ensures Valid() && buffers == old(buffers) + {dek}
      ensures m == old(m)[tenant := Entry(dek, wrapped, version, now + ttl)]
      ensures forall b :: b in Live() ==> b[..] == old(b[..])
    {
      Invalidate(tenant);
      DeksAfterPut(m, tenant, Entry(dek, wrapped, version, now + ttl));
      buffers := buffers + {dek};
      m := m[tenant := Entry(dek, wrapped, version, now + ttl)];
    }

    method Invalidate(tenant: Tenant)
      requires Valid()
      modifies this`m, buffers
      ensures Valid() && m == old(m) - {tenant} && buffers == old(buffers)
      ensures forall b :: b in buffers && (tenant !in old(m) || b != old(m)[tenant].dek) ==> b[..] == old(b[..])
    {
      if tenant in m { Drop(tenant); }
    }

    method Drop(tenant: Tenant)
      requires Valid() && tenant in m
      modifies this`m, m[tenant].dek
      ensures Valid() && m == old(m) - {tenant}
      ensures AllZero(old(m)[tenant].dek)
    {
      DeksAfterDrop(m, tenant);
      Zero(m[tenant].dek);
      m := m - {tenant};
    }
  }
}
