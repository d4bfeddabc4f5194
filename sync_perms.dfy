/** `flagsFromMap`: turn a declared `{capability: bool}` map into the platform's allow and deny
    lists, dropping capability names the platform's permission table does not know. */
module SyncPerms {

  /** A declared capability map, as its entries in insertion order. */
  type CapabilityMap = seq<(string, bool)>

  /** The platform's table from permission name to permission bit. */
  type FlagTable = map<string, nat>

  /** The bits of the known capabilities declared with the given value, in entry order. */
  function Granted(entries: CapabilityMap, bits: FlagTable, value: bool): seq<nat>
    decreases |entries|
  {
    if entries == [] then []
    else
      var (k, v) := entries[|entries| - 1];
      Granted(entries[..|entries| - 1], bits, value) + (if k in bits && v == value then [bits[k]] else [])
  }

  /** The number of entries whose capability the platform knows. */
  function KnownCount(entries: CapabilityMap, bits: FlagTable): nat
    decreases |entries|
  {
    if entries == [] then 0
    else KnownCount(entries[..|entries| - 1], bits) + (if entries[|entries| - 1].0 in bits then 1 else 0)
  }

  method FlagsFromMap(entries: CapabilityMap, bits: FlagTable) returns (allow: seq<nat>, deny: seq<nat>)
    ensures allow == Granted(entries, bits, true)
    ensures deny == Granted(entries, bits, false)
  {
    allow, deny := [], [];
    for i := 0 to |entries|
      invariant allow == Granted(entries[..i], bits, true)
      invariant deny == Granted(entries[..i], bits, false)
    {
      assert entries[..i + 1][..i] == entries[..i];
      var (k, v) := entries[i];
      if k !in bits {
        continue;
      }
      if v {
        allow := allow + [bits[k]];
      } else {
        deny := deny + [bits[k]];
      }
    }
    assert entries[..|entries|] == entries;
  }

  /** Every known entry lands in exactly one of the two lists; unknown ones in neither. */
  lemma {:induction false} GrantedPartition(entries: CapabilityMap, bits: FlagTable)
    ensures |Granted(entries, bits, true)| + |Granted(entries, bits, false)| == KnownCount(entries, bits)
    ensures KnownCount(entries, bits) <= |entries|
    decreases |entries|
  {
    if entries != [] {
      GrantedPartition(entries[..|entries| - 1], bits);
    }
  }

  /** Entry order is kept: the lists for a concatenation are the concatenated lists. */
  lemma {:induction false} GrantedAppend(a: CapabilityMap, b: CapabilityMap, bits: FlagTable, value: bool)
    ensures Granted(a + b, bits, value) == Granted(a, bits, value) + Granted(b, bits, value)
    decreases |b|
  {
    if b == [] {
      assert a + b == a;
    } else {
      var b' := b[..|b| - 1];
      assert (a + b)[..|a + b| - 1] == a + b';
      assert (a + b)[|a + b| - 1] == b[|b| - 1];
      GrantedAppend(a, b', bits, value);
    }
  }

  /** A bit is granted with a value exactly when some known capability declared with that
      value maps to it. */
  lemma {:induction false} GrantedMembers(entries: CapabilityMap, bits: FlagTable, value: bool, x: nat)
    ensures x in Granted(entries, bits, value) <==>
              exists i :: 0 <= i < |entries| && entries[i].0 in bits && entries[i].1 == value
                          && bits[entries[i].0] == x
    decreases |entries|
  {
    if entries != [] {
      var init := entries[..|entries| - 1];
      GrantedMembers(init, bits, value, x);
      assert forall i :: 0 <= i < |init| ==> init[i] == entries[i];
      if x in Granted(entries, bits, value) && x !in Granted(init, bits, value) {
        assert entries[|entries| - 1].0 in bits;
      }
    }
  }
}
