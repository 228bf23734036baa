/**
 The cache of verified claims (src/auth/cache.rs), one caller at a time: an entry lives until the
 earlier of the token's `exp` and a maximum age on the monotonic clock, and the size is capped by
 slots reserved before an entry is stored. Instants are whole seconds.
 */
module ClaimsCache {
  import opened Basics

  /** SHA-256 of a token, taken as distinct for distinct tokens. */
  type TokenKey = string

  /** Verified claims: `exp` and `nbf` as whole seconds where they are usable dates, and the rest. */
  datatype Claims = Claims(exp: Option<nat>, nbf: Option<nat>, rest: string)

  /** A moment on both clocks: Unix time, which may be set back, and seconds since start-up. */
  datatype Now = Now(unix: nat, mono: nat)

  datatype Entry = Entry(claims: Claims, exp: nat, deadline: nat) {
    predicate Live(now: Now) {
      now.unix < exp && now.mono < deadline
    }
  }

  /** The entry for claims verified at `now`; nothing without `exp`, past it, or before `nbf`. */
  function EntryFor(claims: Claims, now: Now, maxTtl: nat): Option<Entry> {
    if claims.exp.None? || claims.exp.value <= now.unix || (claims.nbf.Some? && claims.nbf.value > now.unix)
    then None
    else Some(Entry(claims, claims.exp.value, Min(now.mono + maxTtl, U64_MAX)))
  }

  function LiveOnly(entries: map<TokenKey, Entry>, now: Now): map<TokenKey, Entry> {
    map key | key in entries && entries[key].Live(now) :: entries[key]
  }

  lemma LiveOnlySize(entries: map<TokenKey, Entry>, now: Now)
    ensures |LiveOnly(entries, now)| <= |entries|
  {
    var live := LiveOnly(entries, now);
    assert live.Keys <= entries.Keys;
    assert entries.Keys == live.Keys + (entries.Keys - live.Keys);
  }

  class Cache {
    const maxEntries: nat
    const maxTtl: nat
    var entries: map<TokenKey, Entry>
    var taken: nat
    var nextSweep: nat

    /** Between calls every slot taken holds an entry. */
    ghost predicate Valid()
      reads this
    {
      taken == |entries| <= maxEntries
    }

    constructor (maxEntries: nat, maxTtl: nat)
      ensures Valid() && entries == map[] && nextSweep == 0
      ensures this.maxEntries == maxEntries && this.maxTtl == maxTtl
    {
      this.maxEntries := maxEntries;
      this.maxTtl := maxTtl;
      entries := map[];
      taken := 0;
      nextSweep := 0;
    }

    /** The claims cached for `key` if still live; an entry found dead is dropped. */
    method Get(key: TokenKey, now: Now) returns (claims: Option<Claims>)
      requires Valid()
      modifies this
      ensures Valid() && nextSweep == old(nextSweep)
      ensures claims.Some? <==> key in old(entries) && now.unix < old(entries)[key].exp && now.mono < old(entries)[key].deadline
      ensures claims.Some? ==> claims.value == old(entries)[key].claims
      ensures entries == if claims.None? then old(entries) - {key} else old(entries)
    {
      if key !in entries {
        assert entries - {key} == entries;
        return None;
      }
      if entries[key].Live(now) {
        return Some(entries[key].claims);
      }
      RemovedSize(entries, key);
      entries := entries - {key};
      taken := taken - 1;
      claims := None;
    }

    /** Take one slot, unless all are taken. */
    method Reserve() returns (ok: bool)
      modifies this`taken
      ensures ok == (old(taken) < maxEntries)
      ensures taken == if ok then old(taken) + 1 else old(taken)
    {
      ok := taken < maxEntries;
      if ok {
        taken := taken + 1;
      }
    }

    method ClaimSweep(mono: nat) returns (ok: bool)
      modifies this`nextSweep
      ensures ok == (mono >= old(nextSweep))
      ensures nextSweep == if ok then mono + 1 else old(nextSweep)
    {
      ok := mono >= nextSweep;
      if ok {
        nextSweep := mono + 1;
      }
    }

    method Sweep(now: Now)
      requires Valid()
      modifies this`entries, this`taken
      ensures Valid() && entries == LiveOnly(old(entries), now)
      ensures forall key :: key in entries <==>
                key in old(entries) && now.unix < old(entries)[key].exp && now.mono < old(entries)[key].deadline
    {
      LiveOnlySize(entries, now);
      var freed := |entries| - |LiveOnly(entries, now)|;
      entries := LiveOnly(entries, now);
      taken := taken - freed;
    }

    /**
     Store claims just verified at `now`. A full cache is swept first, once a second; the token
     is stored exactly when a slot is free then, and nothing live is ever given up for it.
     */
    method Insert(key: TokenKey, claims: Claims, now: Now)
      requires Valid()
      modifies this
      ensures Valid()
      ensures var full, entry := |old(entries)| >= maxEntries, EntryFor(claims, now, maxTtl);
              var sweeps := entry.Some? && full && now.mono >= old(nextSweep);
              var base := if sweeps then LiveOnly(old(entries), now) else old(entries);
              && nextSweep == (if sweeps then now.mono + 1 else old(nextSweep))
              && entries == if entry.Some? && |base| < maxEntries then base[key := entry.value] else base
    {
      var entry := EntryFor(claims, now, maxTtl);
      if entry.None? {
        return;
      }
      var reserved := Reserve();
      if !reserved {
        var mine := ClaimSweep(now.mono);
        if !mine {
          return;
        }
        Sweep(now);
        reserved := Reserve();
        if !reserved {
          return;
        }
      }
      AddedSize(entries, key, entry.value);
      var replaced := key in entries;
      entries := entries[key := entry.value];
      if replaced {
        taken := taken - 1;
      }
    }
  }
}
