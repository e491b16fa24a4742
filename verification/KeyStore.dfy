/**
 The keystore (src/keystore.rs).  `Ring` is its meaning: one node id and a plain map from
 (peer, epoch) to key.  `KeyStore` is the ordered container of the source, whose lookups go
 through a range of slots.
 */
module KeyStores {
  import opened Bytes
  import opened Codec
  import opened Sodium

  const MAX_ENTRIES := 1024

  datatype Slot = Slot(peer: U16, epoch: Epoch)

  type Keys = map<Slot, Key>

  datatype Ring = Ring(localId: U16, keys: Keys)

  datatype KeystoreError = InvalidEpoch(bits: Byte) | Full

  /** `Epoch::new`. */
  function NewEpoch(bits: Byte): Result<Epoch, KeystoreError> {
    if bits > MAX_EPOCH then Err(InvalidEpoch(bits)) else Ok(bits)
  }

  /** Some epoch is installed for this peer. */
  predicate PeerKnown(keys: Keys, peer: U16) {
    exists s | s in keys :: s.peer == peer
  }

  /** `e` is the highest epoch installed for `peer`. */
  predicate IsCurrent(keys: Keys, peer: U16, e: Epoch) {
    Slot(peer, e) in keys && forall s | s in keys && s.peer == peer :: s.epoch <= e
  }

  /** The highest epoch below `n` installed for `peer`. */
  function HighestBelow(keys: Keys, peer: U16, n: nat): (r: Option<Epoch>)
    requires n <= MAX_EPOCH + 1
    ensures r.None? <==> forall e: Epoch :: e < n ==> Slot(peer, e) !in keys
    ensures r.Some? ==> Slot(peer, r.value) in keys && r.value < n
    ensures r.Some? ==> forall e: Epoch :: e < n && Slot(peer, e) in keys ==> e <= r.value
  {
    if n == 0 then None
    else if Slot(peer, n - 1) in keys then Some(n - 1)
    else HighestBelow(keys, peer, n - 1)
  }

  /** The epoch a sender uses for `peer`. */
  function Current(keys: Keys, peer: U16): (r: Option<Epoch>)
    ensures r.Some? ==> IsCurrent(keys, peer, r.value)
    ensures r.None? <==> !PeerKnown(keys, peer)
  {
    var r := HighestBelow(keys, peer, MAX_EPOCH + 1);
    assert forall s | s in keys && s.peer == peer :: s == Slot(peer, s.epoch);
    r
  }

  lemma CurrentIsUnique(keys: Keys, peer: U16, e: Epoch)
    ensures IsCurrent(keys, peer, e) <==> Current(keys, peer) == Some(e)
  {
    if IsCurrent(keys, peer, e) {
      assert Slot(peer, e).peer == peer;
    }
  }

  /** The installed-or-refused meaning of `install`. */
  function Installed(keys: Keys, slot: Slot, key: Key): Result<Keys, KeystoreError> {
    if slot !in keys && |keys| >= MAX_ENTRIES then Err(Full) else Ok(keys[slot := key])
  }

  // ----- the ordered container -----

  datatype Entry = Entry(slot: Slot, key: Key)

  /** Slots compare by peer and then by epoch. */
  predicate Less(a: Slot, b: Slot) {
    a.peer < b.peer || (a.peer == b.peer && a.epoch < b.epoch)
  }

  ghost predicate Sorted(entries: seq<Entry>) {
    forall i, j :: 0 <= i < j < |entries| ==> Less(entries[i].slot, entries[j].slot)
  }

  ghost function KeysOf(entries: seq<Entry>): (r: Keys)
    requires Sorted(entries)
  {
    map e | e in entries :: e.slot := e.key
  }

  predicate Between(lo: Slot, s: Slot, hi: Slot) {
    !Less(s, lo) && !Less(hi, s)
  }

  /** The entries with `lo <= slot <= hi`, in order. */
  function InRange(entries: seq<Entry>, lo: Slot, hi: Slot): seq<Entry> {
    if entries == [] then []
    else
      var n := |entries| - 1;
      InRange(entries[..n], lo, hi) + (if Between(lo, entries[n].slot, hi) then [entries[n]] else [])
  }

  lemma {:induction false} InRangeMembers(entries: seq<Entry>, lo: Slot, hi: Slot, e: Entry)
    ensures e in InRange(entries, lo, hi) <==> e in entries && Between(lo, e.slot, hi)
  {
    if entries != [] {
      var n := |entries| - 1;
      InRangeMembers(entries[..n], lo, hi, e);
      assert e in entries <==> e in entries[..n] || e == entries[n];
    }
  }

  /** Every entry of a range comes at or before the range's back. */
  lemma {:induction false} InRangeBack(entries: seq<Entry>, lo: Slot, hi: Slot, e: Entry)
    requires Sorted(entries) && e in InRange(entries, lo, hi)
    ensures var r := InRange(entries, lo, hi); e == r[|r| - 1] || Less(e.slot, r[|r| - 1].slot)
  {
    var n := |entries| - 1;
    if Between(lo, entries[n].slot, hi) {
      InRangeMembers(entries, lo, hi, e);
      var j :| 0 <= j < |entries| && entries[j] == e;
    } else {
      InRangeBack(entries[..n], lo, hi, e);
    }
  }

  /** In a sorted container each slot has one entry, and their number is the map's size. */
  lemma {:induction false} KeysOfSize(entries: seq<Entry>)
    requires Sorted(entries)
    ensures |KeysOf(entries)| == |entries|
  {
    if entries != [] {
      var n := |entries| - 1;
      KeysOfSize(entries[..n]);
      KeysOfSnoc(entries);
    }
  }

  lemma KeysOfSnoc(entries: seq<Entry>)
    requires Sorted(entries) && entries != []
    ensures var n := |entries| - 1;
            && KeysOf(entries) == KeysOf(entries[..n])[entries[n].slot := entries[n].key]
            && entries[n].slot !in KeysOf(entries[..n])
  {
    var n := |entries| - 1;
    forall e
      ensures e in entries <==> e in entries[..n] || e == entries[n]
    {
    }
  }

  class KeyStore {
    const localId: U16
    var entries: seq<Entry>

    ghost predicate Valid()
      reads this
    {
      Sorted(entries) && |entries| <= MAX_ENTRIES
    }

    ghost function Meaning(): Ring
      requires Valid()
      reads this
    {
      Ring(localId, KeysOf(entries))
    }

    constructor (localId: U16)
      ensures Valid() && this.localId == localId
      ensures Meaning() == Ring(localId, map[])
    {
      this.localId := localId;
      entries := [];
    }

    /** Where `slot` is, or where it would go. */
    method Position(slot: Slot) returns (i: nat)
      requires Valid()
      ensures i <= |entries|
      ensures forall j :: 0 <= j < i ==> Less(entries[j].slot, slot)
      ensures forall j :: i <= j < |entries| ==> !Less(entries[j].slot, slot)
    {
      i := 0;
      while i < |entries| && Less(entries[i].slot, slot)
        invariant i <= |entries|
        invariant forall j :: 0 <= j < i ==> Less(entries[j].slot, slot)
      {
        i := i + 1;
      }
    }

    method Install(peer: U16, epoch: Epoch, key: Key) returns (r: Result<(), KeystoreError>)
      requires Valid()
      modifies this
      ensures Valid()
      ensures match Installed(old(Meaning()).keys, Slot(peer, epoch), key)
              case Ok(keys) => r == Ok(()) && Meaning() == Ring(localId, keys)
              case Err(e) => r == Err(e) && Meaning() == old(Meaning())
    {
      var slot := Slot(peer, epoch);
      var i := Position(slot);
      if i < |entries| && entries[i].slot == slot {
        FoundInstalls(entries, i, key);
        entries := entries[i := Entry(slot, key)];
      } else {
        AbsentInstalls(entries, i, slot, key);
        if |entries| >= MAX_ENTRIES {
          return Err(Full);
        }
        entries := entries[..i] + [Entry(slot, key)] + entries[i..];
      }
      r := Ok(());
    }

    method Retire(peer: U16, epoch: Epoch) returns (removed: bool)
      requires Valid()
      modifies this
      ensures Valid()
      ensures removed <==> Slot(peer, epoch) in old(Meaning()).keys
      ensures Meaning() == Ring(localId, old(Meaning()).keys - {Slot(peer, epoch)})
    {
      var slot := Slot(peer, epoch);
      var i := Position(slot);
      removed := i < |entries| && entries[i].slot == slot;
      ghost var before := entries;
      if removed {
        assert entries[i] in entries;
        entries := entries[..i] + entries[i + 1..];
        KeysOfRemoved(before, i);
      } else {
        assert slot !in KeysOf(entries);
        assert KeysOf(entries) - {slot} == KeysOf(entries);
      }
    }

    method Clear()
      requires Valid()
      modifies this
      ensures Valid() && Meaning() == Ring(localId, map[])
    {
      entries := [];
    }

    /** `key_for_send` and `key_for_receive`: the exact-slot lookup. */
    function Get(peer: U16, epoch: Epoch): (r: Option<Key>)
      requires Valid()
      reads this
      ensures r.Some? <==> Slot(peer, epoch) in Meaning().keys
      ensures r.Some? ==> r.value == Meaning().keys[Slot(peer, epoch)]
    {
      var hit := InRange(entries, Slot(peer, epoch), Slot(peer, epoch));
      ExactRange(entries, Slot(peer, epoch));
      if hit == [] then None else Some(hit[0].key)
    }

    /** `key_for_send_current`: the back of the peer's range is its highest epoch. */
    function GetCurrent(peer: U16): (r: Option<(Epoch, Key)>)
      requires Valid()
      reads this
      ensures r.None? <==> Current(Meaning().keys, peer).None?
      ensures r.Some? ==>
                && Current(Meaning().keys, peer) == Some(r.value.0)
                && r.value.1 == Meaning().keys[Slot(peer, r.value.0)]
    {
      RangeBackIsCurrent(entries, peer);
      match Back(entries, peer)
      case None => None
      case Some(last) => Some((last.slot.epoch, last.key))
    }

    /** `peer_known`: the peer's range is not empty. */
    predicate IsPeerKnown(peer: U16)
      requires Valid()
      reads this
      ensures IsPeerKnown(peer) <==> PeerKnown(Meaning().keys, peer)
    {
      RangeIsPeer(entries, peer);
      InRange(entries, Slot(peer, 0), Slot(peer, MAX_EPOCH)) != []
    }
  }

  predicate Has(m: Keys, e: Entry) {
    e.slot in m && m[e.slot] == e.key
  }

  lemma EntryIff(entries: seq<Entry>, e: Entry)
    requires Sorted(entries)
    ensures e in entries <==> Has(KeysOf(entries), e)
  {
    if Has(KeysOf(entries), e) {
      var x :| x in entries && x.slot == e.slot;
    }
  }

  /** A sorted container means the map that has exactly its entries. */
  lemma SameEntries(entries: seq<Entry>, m: Keys)
    requires Sorted(entries)
    requires forall e :: e in entries <==> Has(m, e)
    ensures KeysOf(entries) == m
  {
    forall s
      ensures s in KeysOf(entries) <==> s in m
    {
      if s in m {
        assert Has(m, Entry(s, m[s]));
      }
    }
  }

  lemma SplitMembers(entries: seq<Entry>, i: nat, x: Entry)
    requires i <= |entries|
    ensures x in entries <==> x in entries[..i] || x in entries[i..]
  {
    assert entries == entries[..i] + entries[i..];
  }

  lemma KeysOfInserted(entries: seq<Entry>, i: nat, e: Entry)
    requires Sorted(entries) && i <= |entries|
    requires forall j :: 0 <= j < i ==> Less(entries[j].slot, e.slot)
    requires forall j :: i <= j < |entries| ==> Less(e.slot, entries[j].slot)
    ensures Sorted(entries[..i] + [e] + entries[i..])
    ensures KeysOf(entries[..i] + [e] + entries[i..]) == KeysOf(entries)[e.slot := e.key]
  {
    var after, m := entries[..i] + [e] + entries[i..], KeysOf(entries)[e.slot := e.key];
    assert Sorted(after);
    forall x
      ensures x in after <==> Has(m, x)
    {
      SplitMembers(entries, i, x);
      EntryIff(entries, x);
      if x in entries {
        var j :| 0 <= j < |entries| && entries[j] == x;
        assert x.slot != e.slot;
      }
    }
    SameEntries(after, m);
  }

  lemma KeysOfReplaced(entries: seq<Entry>, i: nat, key: Key)
    requires Sorted(entries) && i < |entries|
    ensures Sorted(entries[i := Entry(entries[i].slot, key)])
    ensures KeysOf(entries[i := Entry(entries[i].slot, key)]) == KeysOf(entries)[entries[i].slot := key]
  {
    var e := Entry(entries[i].slot, key);
    var after, m := entries[i := e], KeysOf(entries)[e.slot := key];
    assert Sorted(after);
    forall x
      ensures x in after <==> Has(m, x)
    {
      EntryIff(entries, x);
      ReplacedMembers(entries, i, e, x);
    }
    SameEntries(after, m);
  }

  lemma ReplacedMembers(entries: seq<Entry>, i: nat, e: Entry, x: Entry)
    requires Sorted(entries) && i < |entries| && e.slot == entries[i].slot
    ensures x in entries[i := e] <==> x == e || (x in entries && x.slot != e.slot)
  {
    var after := entries[i := e];
    assert after[i] == e;
    if x in entries && x.slot != e.slot {
      var j :| 0 <= j < |entries| && entries[j] == x;
      assert after[j] == x;
    }
    if x in after && x != e {
      var j :| 0 <= j < |after| && after[j] == x;
      assert entries[j] == x && (j < i || i < j);
    }
  }

  /** Replacing the entry of a known slot is always possible. */
  lemma FoundInstalls(entries: seq<Entry>, i: nat, key: Key)
    requires Sorted(entries) && i < |entries|
    ensures var after := entries[i := Entry(entries[i].slot, key)];
            Sorted(after) && Installed(KeysOf(entries), entries[i].slot, key) == Ok(KeysOf(after))
  {
    KeysOfReplaced(entries, i, key);
    assert entries[i] in entries;
  }

  /** A new slot goes where it belongs, unless the store is full. */
  lemma AbsentInstalls(entries: seq<Entry>, i: nat, slot: Slot, key: Key)
    requires Sorted(entries) && i <= |entries|
    requires forall j :: 0 <= j < i ==> Less(entries[j].slot, slot)
    requires forall j :: i <= j < |entries| ==> !Less(entries[j].slot, slot)
    requires i == |entries| || entries[i].slot != slot
    ensures var after := entries[..i] + [Entry(slot, key)] + entries[i..];
            && Sorted(after)
            && Installed(KeysOf(entries), slot, key)
               == if |entries| >= MAX_ENTRIES then Err(Full) else Ok(KeysOf(after))
  {
    assert forall j :: i <= j < |entries| ==> Less(slot, entries[j].slot);
    KeysOfInserted(entries, i, Entry(slot, key));
    KeysOfSize(entries);
    assert slot !in KeysOf(entries);
  }

  lemma KeysOfRemoved(entries: seq<Entry>, i: nat)
    requires Sorted(entries) && i < |entries|
    ensures Sorted(entries[..i] + entries[i + 1..])
    ensures KeysOf(entries[..i] + entries[i + 1..]) == KeysOf(entries) - {entries[i].slot}
  {
    var after, m := entries[..i] + entries[i + 1..], KeysOf(entries) - {entries[i].slot};
    assert Sorted(after);
    forall x
      ensures x in after <==> Has(m, x)
    {
      EntryIff(entries, x);
      RemovedMembers(entries, i, x);
    }
    SameEntries(after, m);
  }

  lemma RemovedMembers(entries: seq<Entry>, i: nat, x: Entry)
    requires Sorted(entries) && i < |entries|
    ensures x in entries[..i] + entries[i + 1..] <==> x in entries && x.slot != entries[i].slot
  {
    var after := entries[..i] + entries[i + 1..];
    if x in after {
      var j :| 0 <= j < |after| && after[j] == x;
      assert x == entries[if j < i then j else j + 1];
    }
    if x in entries && x.slot != entries[i].slot {
      var j :| 0 <= j < |entries| && entries[j] == x;
      assert after[if j < i then j else j - 1] == x;
    }
  }

  lemma ExactRange(entries: seq<Entry>, slot: Slot)
    requires Sorted(entries)
    ensures var hit := InRange(entries, slot, slot);
            && (hit != [] <==> slot in KeysOf(entries))
            && (hit != [] ==> hit[0].key == KeysOf(entries)[slot])
  {
    var hit := InRange(entries, slot, slot);
    if hit != [] {
      InRangeMembers(entries, slot, slot, hit[0]);
    }
    if slot in KeysOf(entries) {
      InRangeMembers(entries, slot, slot, Entry(slot, KeysOf(entries)[slot]));
    }
  }

  /** The slots between (peer, 0) and (peer, 31) are exactly the peer's. */
  lemma RangeIsPeer(entries: seq<Entry>, peer: U16)
    requires Sorted(entries)
    ensures InRange(entries, Slot(peer, 0), Slot(peer, MAX_EPOCH)) != [] <==> PeerKnown(KeysOf(entries), peer)
  {
    var hits := InRange(entries, Slot(peer, 0), Slot(peer, MAX_EPOCH));
    if hits != [] {
      InRangeMembers(entries, Slot(peer, 0), Slot(peer, MAX_EPOCH), hits[0]);
      assert hits[0].slot in KeysOf(entries);
    }
    if s :| s in KeysOf(entries) && s.peer == peer {
      InRangeMembers(entries, Slot(peer, 0), Slot(peer, MAX_EPOCH), Entry(s, KeysOf(entries)[s]));
    }
  }

  /** The back of a peer's range, read from the container. */
  function Back(entries: seq<Entry>, peer: U16): Option<Entry> {
    var hits := InRange(entries, Slot(peer, 0), Slot(peer, MAX_EPOCH));
    if hits == [] then None else Some(hits[|hits| - 1])
  }

  lemma RangeBackIsCurrent(entries: seq<Entry>, peer: U16)
    requires Sorted(entries)
    ensures match Back(entries, peer)
            case None => Current(KeysOf(entries), peer).None?
            case Some(last) =>
              && Current(KeysOf(entries), peer) == Some(last.slot.epoch)
              && last.slot == Slot(peer, last.slot.epoch)
              && last.slot in KeysOf(entries)
              && last.key == KeysOf(entries)[last.slot]
  {
    RangeIsPeer(entries, peer);
    if Back(entries, peer).Some? {
      var last := Back(entries, peer).value;
      InRangeMembers(entries, Slot(peer, 0), Slot(peer, MAX_EPOCH), last);
      assert last.slot in KeysOf(entries);
      forall s | s in KeysOf(entries) && s.peer == peer
        ensures s.epoch <= last.slot.epoch
      {
        RangeBackIsLast(entries, peer, Entry(s, KeysOf(entries)[s]));
      }
      CurrentIsUnique(KeysOf(entries), peer, last.slot.epoch);
    }
  }

  lemma RangeBackIsLast(entries: seq<Entry>, peer: U16, e: Entry)
    requires Sorted(entries) && e in entries && e.slot.peer == peer
    ensures Back(entries, peer).Some? && e.slot.epoch <= Back(entries, peer).value.slot.epoch
  {
    var lo, hi := Slot(peer, 0), Slot(peer, MAX_EPOCH);
    var hits := InRange(entries, lo, hi);
    InRangeMembers(entries, lo, hi, e);
    InRangeBack(entries, lo, hi, e);
    InRangeMembers(entries, lo, hi, hits[|hits| - 1]);
  }
}
