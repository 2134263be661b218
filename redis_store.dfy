/** The part of Redis the cache scripts use: one key space whose keys hold
    string hashes or string sets. An empty hash or set is the same as a
    missing key (HGETALL answers `{}`, SMEMBERS answers the empty set). */
module RedisStore {
  import opened Common

  type Hash = map<string, string>

  /** The whole key space at one moment. */
  datatype Snapshot = Snapshot(hashes: map<string, Hash>, sets: map<string, set<string>>)

  function KeySpace(s: Snapshot): set<string>
  {
    s.hashes.Keys + s.sets.Keys
  }

  /** HGETALL. */
  function HashAt(s: Snapshot, k: string): Hash
  {
    if k in s.hashes then s.hashes[k] else map[]
  }

  /** SMEMBERS. */
  function MembersAt(s: Snapshot, k: string): set<string>
  {
    if k in s.sets then s.sets[k] else {}
  }

  /** HSET with a mapping: the given fields replace fields of the same
      name, the other fields of the hash stay. */
  function WithFields(s: Snapshot, k: string, fields: Hash): (r: Snapshot)
  {
    s.(hashes := s.hashes[k := HashAt(s, k) + fields])
  }

  /** SADD of one member. */
  function WithMember(s: Snapshot, k: string, m: string): (r: Snapshot)
  {
    s.(sets := s.sets[k := MembersAt(s, k) + {m}])
  }

  /** SADD adds its key and its member there, and touches nothing else. */
  lemma WithMemberEffect(s: Snapshot, k: string, m: string)
    ensures WithMember(s, k, m).hashes == s.hashes
    ensures WithMember(s, k, m).sets.Keys == s.sets.Keys + {k}
    ensures forall k' :: MembersAt(WithMember(s, k, m), k') == MembersAt(s, k') + (if k' == k then {m} else {})
  {
  }

  /** The keys a pattern `p*` selects (SCAN ... MATCH). */
  function KeysWithPrefix(s: Snapshot, p: string): (ks: set<string>)
    ensures forall k :: k in ks <==> k in KeySpace(s) && StartsWith(k, p)
  {
    set k | k in KeySpace(s) && StartsWith(k, p)
  }

  /** The keys a pattern `p*x*` selects (KEYS), reading `x` literally: no
      glob metacharacters are interpreted in it. */
  function KeysMatching(s: Snapshot, p: string, x: string): (ks: set<string>)
    ensures forall k :: k in ks <==> k in KeySpace(s) && StartsWith(k, p) && Contains(k[|p|..], x)
  {
    set k | k in KeySpace(s) && StartsWith(k, p) && Contains(k[|p|..], x)
  }

  /** The snapshot with the keys `ks` deleted. */
  function WithoutKeys(s: Snapshot, ks: set<string>): (r: Snapshot)
    ensures forall k :: k in r.hashes <==> k in s.hashes && k !in ks
    ensures forall k :: k in r.sets <==> k in s.sets && k !in ks
  {
    Snapshot(map k | k in s.hashes && k !in ks :: s.hashes[k],
             map k | k in s.sets && k !in ks :: s.sets[k])
  }

  /** Every key starting with `p` deleted, every other key as it was. */
  function ClearPrefix(s: Snapshot, p: string): (r: Snapshot)
    ensures forall k :: HashAt(r, k) == if StartsWith(k, p) then map[] else HashAt(s, k)
    ensures forall k :: MembersAt(r, k) == if StartsWith(k, p) then {} else MembersAt(s, k)
    ensures forall k :: k in KeySpace(r) <==> k in KeySpace(s) && !StartsWith(k, p)
  {
    WithoutKeys(s, KeysWithPrefix(s, p))
  }

  /** Union of the members of every key the pattern `p*x*` selects. */
  function MembersMatching(s: Snapshot, p: string, x: string): (ids: set<string>)
    ensures forall m :: m in ids <==> exists k :: k in KeysMatching(s, p, x) && m in MembersAt(s, k)
  {
    set k, m | k in KeysMatching(s, p, x) && m in MembersAt(s, k) :: m
  }

  /** The Redis server the scripts talk to; its methods are the commands. */
  class Redis {
    var hashes: map<string, Hash>
    var sets: map<string, set<string>>

    function State(): Snapshot
      reads this
    {
      Snapshot(hashes, sets)
    }

    method HGetAll(k: string) returns (h: Hash)
      ensures h == HashAt(State(), k)
    {
      h := if k in hashes then hashes[k] else map[];
    }

    method SMembers(k: string) returns (m: set<string>)
      ensures m == MembersAt(State(), k)
    {
      m := if k in sets then sets[k] else {};
    }

    method HSet(k: string, fields: Hash)
      modifies this
      ensures State() == WithFields(old(State()), k, fields)
    {
      var h := if k in hashes then hashes[k] else map[];
      hashes := hashes[k := h + fields];
    }

    method SAdd(k: string, m: string)
      modifies this
      ensures State() == WithMember(old(State()), k, m)
    {
      var cur := if k in sets then sets[k] else {};
      sets := sets[k := cur + {m}];
    }

    method Delete(k: string)
      modifies this
      ensures State() == WithoutKeys(old(State()), {k})
    {
      hashes := hashes - {k};
      sets := sets - {k};
    }

    /** SCAN with MATCH `p*`: every matching key, once. */
    method ScanIter(p: string) returns (ks: set<string>)
      ensures ks == KeysWithPrefix(State(), p)
    {
      ks := set k | k in hashes.Keys + sets.Keys && StartsWith(k, p);
    }

    /** KEYS `p*x*`. */
    method Keys(p: string, x: string) returns (ks: set<string>)
      ensures ks == KeysMatching(State(), p, x)
    {
      ks := set k | k in hashes.Keys + sets.Keys && StartsWith(k, p) && Contains(k[|p|..], x);
    }
  }

  /** `for key in r.scan_iter("p*"): r.delete(key)`. */
  method DeleteMatching(r: Redis, p: string)
    modifies r
    ensures r.State() == ClearPrefix(old(r.State()), p)
  {
    ghost var s0 := r.State();
    var keys := r.ScanIter(p);
    ghost var all := keys;
    ghost var done: set<string> := {};
    while keys != {}
      invariant done + keys == all
      invariant r.State() == WithoutKeys(s0, done)
      decreases |keys|
    {
      var k :| k in keys;
      r.Delete(k);
      WithoutKeysStep(s0, done, k);
      done := done + {k};
      keys := keys - {k};
    }
    assert done == all;
  }

  lemma WithoutKeysStep(s: Snapshot, d: set<string>, k: string)
    ensures WithoutKeys(WithoutKeys(s, d), {k}) == WithoutKeys(s, d + {k})
  {
    var a := WithoutKeys(WithoutKeys(s, d), {k});
    var b := WithoutKeys(s, d + {k});
    assert a.hashes == b.hashes;
    assert a.sets == b.sets;
  }

  /** `[r.hgetall(f"p{id}") for id in ids]`, one hash per id. Python lists
      them in set iteration order, which is unspecified; the model keys
      them by id. */
  function FetchAll(s: Snapshot, p: string, ids: set<string>): (r: map<string, Hash>)
    ensures r.Keys == ids
    ensures forall id :: id in r ==> r[id] == HashAt(s, p + id)
  {
    map id | id in ids :: HashAt(s, p + id)
  }
}
