/** The local-address choice (src/main/network.ts) over the interface table
    `os.networkInterfaces()` returns, given as data. */
module Network {
  import opened Util

  /** One address entry of an interface. */
  datatype NetEntry = NetEntry(address: string, family: string, internal: bool)

  /** The address used when no entry qualifies. */
  const Fallback: string := "127.0.0.1"

  /** An external IPv4 entry. */
  predicate Qualifies(e: NetEntry) {
    e.family == "IPv4" && !e.internal
  }

  /** The entries of an interface slot; an `undefined` slot has none. */
  function Slot(s: Option<seq<NetEntry>>): seq<NetEntry> {
    if s.Some? then s.value else []
  }

  /** All entries, interface by interface in key order, each interface's in
      its own order. */
  function Flatten(ifaces: seq<Option<seq<NetEntry>>>): seq<NetEntry>
    decreases |ifaces|
  {
    if ifaces == [] then [] else Flatten(ifaces[..|ifaces| - 1]) + Slot(ifaces[|ifaces| - 1])
  }

  /** The address of the earliest qualifying entry, if there is one. */
  function FirstQualifying(entries: seq<NetEntry>): Option<string>
    decreases |entries|
  {
    if entries == [] then None
    else
      match FirstQualifying(entries[..|entries| - 1])
      case Some(a) => Some(a)
      case None => if Qualifies(entries[|entries| - 1]) then Some(entries[|entries| - 1].address) else None
  }

  /** `FirstQualifying` finds nothing exactly when no entry qualifies, and
      otherwise the address of a qualifying entry with none before it. */
  lemma {:induction false} FirstQualifyingSpec(entries: seq<NetEntry>)
    ensures FirstQualifying(entries).None? <==> forall k :: 0 <= k < |entries| ==> !Qualifies(entries[k])
    ensures FirstQualifying(entries).Some? ==>
      exists k :: 0 <= k < |entries| && Qualifies(entries[k]) && entries[k].address == FirstQualifying(entries).value &&
        forall j :: 0 <= j < k ==> !Qualifies(entries[j])
    decreases |entries|
  {
    if entries != [] {
      var prefix := entries[..|entries| - 1];
      FirstQualifyingSpec(prefix);
      assert forall k :: 0 <= k < |prefix| ==> prefix[k] == entries[k];
      if FirstQualifying(prefix).Some? {
        var k :| 0 <= k < |prefix| && Qualifies(prefix[k]) && prefix[k].address == FirstQualifying(prefix).value &&
          forall j :: 0 <= j < k ==> !Qualifies(prefix[j]);
        assert Qualifies(entries[k]) && forall j :: 0 <= j < k ==> !Qualifies(entries[j]);
      } else if Qualifies(entries[|entries| - 1]) {
        assert forall j :: 0 <= j < |entries| - 1 ==> !Qualifies(entries[j]);
      }
    }
  }

  /** The address `getLocalIp` settles on. */
  function LocalIpOf(ifaces: seq<Option<seq<NetEntry>>>): (ip: string)
    ensures (forall e :: e in Flatten(ifaces) ==> !Qualifies(e)) ==> ip == Fallback
    ensures ip == Fallback || exists e :: e in Flatten(ifaces) && Qualifies(e) && e.address == ip
  {
    var entries := Flatten(ifaces);
    FirstQualifyingSpec(entries);
    match FirstQualifying(entries)
    case Some(a) => a
    case None => Fallback
  }

  lemma {:induction false} FlattenAppend(a: seq<Option<seq<NetEntry>>>, b: seq<Option<seq<NetEntry>>>)
    ensures Flatten(a + b) == Flatten(a) + Flatten(b)
    decreases |b|
  {
    if b == [] {
      assert a + b == a;
    } else {
      var b' := b[..|b| - 1];
      assert (a + b)[..|a + b| - 1] == a + b';
      assert (a + b)[|a + b| - 1] == b[|b| - 1];
      FlattenAppend(a, b');
    }
  }

  /** The earliest qualifying entry of two listings one after the other is the
      first one's, if it has one, and otherwise the second one's. */
  lemma {:induction false} FirstQualifyingAppend(a: seq<NetEntry>, b: seq<NetEntry>)
    ensures FirstQualifying(a + b) == if FirstQualifying(a).Some? then FirstQualifying(a) else FirstQualifying(b)
    decreases |b|
  {
    if b == [] {
      assert a + b == a;
    } else {
      var b' := b[..|b| - 1];
      assert (a + b)[..|a + b| - 1] == a + b';
      assert (a + b)[|a + b| - 1] == b[|b| - 1];
      FirstQualifyingAppend(a, b');
    }
  }

  /** An `undefined` interface slot changes nothing, wherever it sits. */
  lemma UndefinedSlotSkipped(before: seq<Option<seq<NetEntry>>>, after: seq<Option<seq<NetEntry>>>)
    ensures LocalIpOf(before + [None] + after) == LocalIpOf(before + after)
  {
    var withSlot := before + [None];
    assert withSlot[..|withSlot| - 1] == before;
    assert Flatten(withSlot) == Flatten(before) + [];
    FlattenAppend(withSlot, after);
    FlattenAppend(before, after);
    assert before + [None] + after == withSlot + after;
    assert Flatten(before + [None] + after) == Flatten(before + after);
  }

  /** `getLocalIp`: interfaces in key order, `undefined` ones skipped, entries
      in order, and the first external IPv4 address returned at once. */
  method GetLocalIp(ifaces: seq<Option<seq<NetEntry>>>) returns (ip: string)
    ensures ip == LocalIpOf(ifaces)
  {
    var i := 0;
    while i < |ifaces|
      invariant 0 <= i <= |ifaces|
      invariant FirstQualifying(Flatten(ifaces[..i])).None?
      decreases |ifaces| - i
    {
      assert ifaces[..i + 1][..i] == ifaces[..i];
      var netInterface := ifaces[i];
      if netInterface.None? {
        assert Flatten(ifaces[..i + 1]) == Flatten(ifaces[..i]);
        i := i + 1;
        continue;
      }
      var entries := netInterface.value;
      var j := 0;
      while j < |entries|
        invariant 0 <= j <= |entries|
        invariant FirstQualifying(entries[..j]).None?
        decreases |entries| - j
      {
        assert entries[..j + 1][..j] == entries[..j];
        if Qualifies(entries[j]) {
          ip := entries[j].address;
          FoundAt(ifaces, i, j);
          return;
        }
        j := j + 1;
      }
      assert entries[..j] == entries;
      FirstQualifyingAppend(Flatten(ifaces[..i]), entries);
      i := i + 1;
    }
    assert ifaces[..i] == ifaces;
    ip := Fallback;
  }

  /** A qualifying entry with nothing qualifying before it is the one found. */
  lemma FirstAt(entries: seq<NetEntry>, j: nat)
    requires j < |entries| && FirstQualifying(entries[..j]).None? && Qualifies(entries[j])
    ensures FirstQualifying(entries) == Some(entries[j].address)
  {
    var upTo := entries[..j + 1];
    assert upTo[..j] == entries[..j];
    assert FirstQualifying(upTo) == Some(entries[j].address);
    assert entries == upTo + entries[j + 1..];
    FirstQualifyingAppend(upTo, entries[j + 1..]);
  }

  /** A qualifying entry found with nothing qualifying before it, in earlier
      interfaces or earlier in its own, is the chosen one. */
  lemma FoundAt(ifaces: seq<Option<seq<NetEntry>>>, i: nat, j: nat)
    requires i < |ifaces| && ifaces[i].Some? && j < |ifaces[i].value|
    requires FirstQualifying(Flatten(ifaces[..i])).None?
    requires FirstQualifying(ifaces[i].value[..j]).None? && Qualifies(ifaces[i].value[j])
    ensures LocalIpOf(ifaces) == ifaces[i].value[j].address
  {
    var entries := ifaces[i].value;
    var addr := entries[j].address;
    FirstAt(entries, j);
    var upTo := ifaces[..i + 1];
    assert Flatten(upTo) == Flatten(ifaces[..i]) + entries by {
      assert upTo[..i] == ifaces[..i];
    }
    assert FirstQualifying(Flatten(upTo)) == Some(addr) by {
      FirstQualifyingAppend(Flatten(ifaces[..i]), entries);
    }
    assert Flatten(ifaces) == Flatten(upTo) + Flatten(ifaces[i + 1..]) by {
      assert ifaces == upTo + ifaces[i + 1..];
      FlattenAppend(upTo, ifaces[i + 1..]);
    }
    FirstQualifyingAppend(Flatten(upTo), Flatten(ifaces[i + 1..]));
  }
}
