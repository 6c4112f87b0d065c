// Which buckets an address can get into: what the hashed placement is for.
module AddrBuckets {
  import opened AddrTables
  import opened AddrInvariant

  function SourceBucket(o: Oracle, key: Bytes, group: Bytes, i: nat): int {
    o.hash([Blob(key), Blob(group), Number(i)]) % NEW_BUCKET_COUNT
  }

  /** Whatever addresses the sources of one group announce, they reach no more
      than 32 new buckets. */
  lemma SourceReaches32(o: Oracle, key: Bytes, group: Bytes) returns (buckets: set<int>)
    ensures |buckets| <= 32
    ensures forall s: Service, source: NetAddr | o.group(source) == group :: NewBucket(o, key, s, source) in buckets
  {
    var values := seq(32, i requires 0 <= i < 32 => SourceBucket(o, key, group, i));
    buckets := Elements(values);
    ElementsBound(values);
    forall s: Service, source: NetAddr | o.group(source) == group ensures NewBucket(o, key, s, source) in buckets {
      var i := o.hash([Blob(key), Blob(o.group(s.ip)), Blob(group)]) % 32;
      assert values[i] == NewBucket(o, key, s, source);
    }
  }

  function GroupBucket(o: Oracle, key: Bytes, group: Bytes, i: nat): int {
    o.hash([Blob(key), Blob(group), Number(i)]) % TRIED_BUCKET_COUNT
  }

  /** All addresses of one group share no more than 4 tried buckets. */
  lemma GroupReaches4(o: Oracle, key: Bytes, group: Bytes) returns (buckets: set<int>)
    ensures |buckets| <= 4
    ensures forall s: Service | o.group(s.ip) == group :: TriedBucket(o, key, s) in buckets
  {
    var values := seq(4, i requires 0 <= i < 4 => GroupBucket(o, key, group, i));
    buckets := Elements(values);
    ElementsBound(values);
    forall s: Service | o.group(s.ip) == group ensures TriedBucket(o, key, s) in buckets {
      var i := o.hash([Blob(key), Blob(ServiceKey(s))]) % 4;
      assert values[i] == TriedBucket(o, key, s);
    }
  }

  /** A new bucket depends on the key and the two groups only. */
  lemma GroupsDecide(o: Oracle, key: Bytes, s: Service, s': Service, source: NetAddr, source': NetAddr)
    requires o.group(s.ip) == o.group(s'.ip) && o.group(source) == o.group(source')
    ensures NewBucket(o, key, s, source) == NewBucket(o, key, s', source')
  {
  }

  // ------------------------------------------------------------- and it uses them all

  /** An oracle that passes one byte through: of the key, of what the first hash
      was taken of, or of the group that the second hash is taken of. */
  function Telling(field: nat): Oracle {
    Oracle(fields => Told(fields, field), ip => if ip == [] then [] else ip[..1], ip => true)
  }

  function Told(fields: seq<Field>, field: nat): nat {
    if |fields| == 3 && fields[2].Number? then
      if field == 1 then fields[2].n else First(fields, if field == 0 then 0 else 1)
    else if |fields| > 1 then Last(fields, 1) else 0
  }

  /** The first and the last byte of a field. */
  function First(fields: seq<Field>, i: nat): nat {
    if i < |fields| && fields[i].Blob? && fields[i].bytes != [] then fields[i].bytes[0] else 0
  }

  function Last(fields: seq<Field>, i: nat): nat {
    if i < |fields| && fields[i].Blob? && fields[i].bytes != [] then fields[i].bytes[|fields[i].bytes| - 1] else 0
  }

  /** The key, the group of the address, that of the source and the port all make
      a difference, each where it should: for a new bucket the first hash is taken
      of the address's group and the second of the source's, for a tried one the
      first of the service and the second of the address's group. */
  lemma AllMatter(k: nat, a: nat, b: nat, port: nat)
    requires k < 64 && a < 256 && b < 256
    ensures NewBucket(Telling(0), [k], Service([a], port), [b]) == k
    ensures NewBucket(Telling(1), [k], Service([a], port), [b]) == a % 32
    ensures NewBucket(Telling(2), [k], Service([a], port), [b]) == b
    ensures TriedBucket(Telling(0), [k], Service([a], port)) == k
    ensures TriedBucket(Telling(1), [k], Service([a], port)) == port % 4
    ensures TriedBucket(Telling(2), [k], Service([a], port)) == a % 64
  {
    assert [a][..1] == [a] && [b][..1] == [b];
    assert (port % 0x100) % 4 == port % 4;
  }
}
