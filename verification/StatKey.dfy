/**
 The primary key `entity_id:patch:tier:region` of a stat entry (metastore/sstable.go).
 Entity ids such as `comp:X` contain colons, so the key is parsed from the right.
 */
module StatKey {
  import opened BigEndian
  import opened VectorClock

  type Key = Bytes

  const COLON: byte := 58

  function EntryKey(e: StatEntry): (k: Key) {
    e.entityId + [COLON] + e.patch + [COLON] + e.tier + [COLON] + e.region
  }

  predicate ColonFree(e: StatEntry) {
    COLON !in e.patch && COLON !in e.tier && COLON !in e.region
  }

  predicate SameIdentity(a: StatEntry, b: StatEntry) {
    a.entityId == b.entityId && a.patch == b.patch && a.tier == b.tier && a.region == b.region
  }

  lemma {:induction false} SeparatorFallsInside(a: Bytes, b: Bytes, c: Bytes, d: Bytes, sep: byte)
    requires a + [sep] + b == c + [sep] + d && |a| > |c|
    ensures sep in d
  {
    assert (a + [sep] + b)[|a|] == sep;
    assert (c + [sep] + d)[|a|] == d[|a| - |c| - 1];
  }

  /** The last separator of a byte string splits it in only one way. */
  lemma {:induction false} LastSplitUnique(a: Bytes, b: Bytes, c: Bytes, d: Bytes, sep: byte)
    requires a + [sep] + b == c + [sep] + d
    requires sep !in b && sep !in d
    ensures a == c && b == d
  {
    if |a| > |c| { SeparatorFallsInside(a, b, c, d, sep); }
    if |c| > |a| { SeparatorFallsInside(c, d, a, b, sep); }
    assert a == (a + [sep] + b)[..|a|] && c == (c + [sep] + d)[..|c|];
    assert b == (a + [sep] + b)[|a| + 1..] && d == (c + [sep] + d)[|c| + 1..];
  }

  /** Distinct stats never share a key, whatever the entity ids contain. */
  lemma {:induction false} EntryKeyInjective(a: StatEntry, b: StatEntry)
    requires ColonFree(a) && ColonFree(b)
    ensures EntryKey(a) == EntryKey(b) <==> SameIdentity(a, b)
  {
    if EntryKey(a) == EntryKey(b) {
      LastSplitUnique(a.entityId + [COLON] + a.patch + [COLON] + a.tier, a.region,
                      b.entityId + [COLON] + b.patch + [COLON] + b.tier, b.region, COLON);
      LastSplitUnique(a.entityId + [COLON] + a.patch, a.tier, b.entityId + [COLON] + b.patch, b.tier, COLON);
      LastSplitUnique(a.entityId, a.patch, b.entityId, b.patch, COLON);
    }
  }

  /** Read from the right, a key names region, tier, patch and entity, in this order. */
  lemma {:induction false} KeyReadsBack(e: StatEntry, id: Bytes, patch: Bytes, tier: Bytes, region: Bytes)
    requires ColonFree(e) && COLON !in patch && COLON !in tier && COLON !in region
    requires EntryKey(e) == id + [COLON] + patch + [COLON] + tier + [COLON] + region
    ensures id == e.entityId && patch == e.patch && tier == e.tier && region == e.region
  {
    LastSplitUnique(e.entityId + [COLON] + e.patch + [COLON] + e.tier, e.region, id + [COLON] + patch + [COLON] + tier, region, COLON);
    LastSplitUnique(e.entityId + [COLON] + e.patch, e.tier, id + [COLON] + patch, tier, COLON);
    LastSplitUnique(e.entityId, e.patch, id, patch, COLON);
  }

  lemma {:induction false} SplitAt(s: Bytes, sep: byte) returns (l: Bytes, r: Bytes)
    requires sep in s
    ensures s == l + [sep] + r
  {
    var i :| 0 <= i < |s| && s[i] == sep;
    l, r := s[..i], s[i + 1..];
  }

  /** The condition is exact: a colon in patch, tier or region makes another stat share the key. */
  lemma {:induction false} ColonMakesKeysCollide(e: StatEntry) returns (other: StatEntry)
    requires !ColonFree(e)
    ensures EntryKey(other) == EntryKey(e) && !SameIdentity(other, e)
  {
    if COLON in e.patch {
      var l, r := SplitAt(e.patch, COLON);
      other := e.(entityId := e.entityId + [COLON] + l, patch := r);
    } else if COLON in e.tier {
      var l, r := SplitAt(e.tier, COLON);
      other := e.(entityId := e.entityId + [COLON] + e.patch, patch := l, tier := r);
    } else {
      var l, r := SplitAt(e.region, COLON);
      other := e.(entityId := e.entityId + [COLON] + e.patch, patch := e.tier, tier := l, region := r);
    }
    assert |other.entityId| > |e.entityId|;
    assert EntryKey(other) == EntryKey(e);
  }

  // ----- encoded entries ---------------------------------------------------------

  /** proto.Marshal / proto.Unmarshal. Only admissible entries are taken to round-trip. */
  datatype Codec = Codec(enc: StatEntry -> Bytes, dec: Bytes -> Option<StatEntry>)

  /** The gRPC server refuses messages above 32 MiB (metastore/main.go:80). */
  const MAX_MESSAGE: nat := 0x200_0000

  /** What a client may submit: a message the codec can carry (valid text, machine-sized
      numbers), with non-negative counters, within the message limit. */
  ghost predicate Admissible(c: Codec, e: StatEntry) {
    Sane(e) && c.dec(c.enc(e)) == Some(e) && |EntryKey(e)| + |c.enc(e)| <= MAX_MESSAGE
  }
}
