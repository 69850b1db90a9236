/** Per-process capability tables (src/kernel/core/handle.c). */
module Handles {
  import opened Basics

  const HANDLE_MAX: nat := 64

  datatype Right = Read | Write | Exec | Transfer

  datatype Entry = Entry(kind: int, rights: set<Right>, obj: int, owns: bool)

  /** Slot visited at step `k` of the search that starts at `hint`. */
  function Probe(hint: nat, k: nat): (i: nat)
    ensures i < HANDLE_MAX
  {
    (hint + k) % HANDLE_MAX
  }

  /** The search visits every slot. */
  lemma ProbeCovers(hint: nat, i: nat) returns (k: nat)
    requires hint < HANDLE_MAX && i < HANDLE_MAX
    ensures k < HANDLE_MAX && Probe(hint, k) == i
  {
    k := if i >= hint then i - hint else i + HANDLE_MAX - hint;
  }

  ghost predicate TakenBefore(es: seq<Option<Entry>>, hint: nat, k: nat)
    requires |es| == HANDLE_MAX
  {
    forall j :: 0 <= j < k ==> es[Probe(hint, j)] != None
  }

  /** `i` is the first free slot met from `hint` on. */
  ghost predicate FirstFree(es: seq<Option<Entry>>, hint: nat, i: nat)
    requires |es| == HANDLE_MAX
  {
    i < HANDLE_MAX && es[i] == None && exists k: nat :: Probe(hint, k) == i && TakenBefore(es, hint, k)
  }

  /** The objects that the entries own, in slot order: what handle_table_destroy releases. */
  function OwnedObjects(es: seq<Option<Entry>>): (os: seq<int>) {
    if es == [] then []
    else OwnedObjects(es[..|es| - 1])
         + (if es[|es| - 1].Some? && es[|es| - 1].value.owns then [es[|es| - 1].value.obj] else [])
  }

  class HandleTable {
    const entries: array<Option<Entry>>
    var nextHint: nat
    /** Objects passed to the release callback so far. */
    var released: seq<int>

    ghost predicate Valid()
      reads this, entries
    {
      entries.Length == HANDLE_MAX && nextHint < HANDLE_MAX
    }

    constructor ()
      ensures Valid() && released == [] && fresh(entries)
      ensures forall i :: 0 <= i < HANDLE_MAX ==> entries[i] == None
    {
      entries := new Option<Entry>[HANDLE_MAX](_ => None);
      nextHint, released := 0, [];
    }

    /** handle_create_ex: the first free slot from the hint on, or none exactly when all are taken. */
    method CreateEx(e: Entry) returns (h: Option<nat>)
      requires Valid()
      modifies this`nextHint, entries
      ensures Valid()
      ensures h == None <==> forall i :: 0 <= i < HANDLE_MAX ==> old(entries[i]) != None
      ensures h == None ==> entries[..] == old(entries[..]) && nextHint == old(nextHint)
      ensures h.Some? ==>
                && h.value < HANDLE_MAX && old(entries[h.value]) == None
                && entries[..] == old(entries[..])[h.value := Some(e)]
                && nextHint == (h.value + 1) % HANDLE_MAX
                && FirstFree(old(entries[..]), old(nextHint), h.value)
    {
      for k := 0 to HANDLE_MAX
        invariant forall j {:trigger Probe(nextHint, j)} :: 0 <= j < k ==> entries[Probe(nextHint, j)] != None
      {
        var idx := Probe(nextHint, k);
        if entries[idx] == None {
          entries[idx] := Some(e);
          nextHint := (idx + 1) % HANDLE_MAX;
          assert Probe(old(nextHint), k) == idx && TakenBefore(old(entries[..]), old(nextHint), k);
          return Some(idx);
        }
      }
      forall i | 0 <= i < HANDLE_MAX
        ensures entries[i] != None
      {
        var k := ProbeCovers(nextHint, i);
      }
      return None;
    }

    method HasFreeSlot() returns (b: bool)
      requires Valid()
      ensures b <==> exists i :: 0 <= i < HANDLE_MAX && entries[i] == None
    {
      for i := 0 to HANDLE_MAX
        invariant forall j :: 0 <= j < i ==> entries[j] != None
      {
        if entries[i] == None {
          return true;
        }
      }
      return false;
    }

    /** handle_lookup_full: the entry, if open and carrying every required right. */
    method LookupFull(h: nat, required: set<Right>) returns (r: Option<Entry>)
      requires Valid()
      ensures r.Some? <==> h < HANDLE_MAX && entries[h].Some? && required <= entries[h].value.rights
      ensures r.Some? ==> r == entries[h]
    {
      if h >= HANDLE_MAX || entries[h] == None || !(required <= entries[h].value.rights) {
        return None;
      }
      return entries[h];
    }

    /** handle_close: an owning entry releases its object. */
    method Close(h: nat) returns (ok: bool)
      requires Valid()
      modifies this`released, entries
      ensures Valid()
      ensures ok <==> h < HANDLE_MAX && old(entries[h]) != None
      ensures !ok ==> entries[..] == old(entries[..]) && released == old(released)
      ensures ok ==> entries[..] == old(entries[..])[h := None]
                     && released == old(released) + OwnedObjects([old(entries[h])])
    {
      if h >= HANDLE_MAX || entries[h] == None {
        return false;
      }
      if entries[h].value.owns {
        released := released + [entries[h].value.obj];
      }
      entries[h] := None;
      return true;
    }

    /** handle_disown: the entry stays open but no longer owns. */
    method Disown(h: nat) returns (ok: bool)
      requires Valid()
      modifies entries
      ensures Valid()
      ensures ok <==> h < HANDLE_MAX && old(entries[h]) != None
      ensures !ok ==> entries[..] == old(entries[..])
      ensures ok ==> entries[..] == old(entries[..])[h := Some(old(entries[h]).value.(owns := false))]
    {
      if h >= HANDLE_MAX || entries[h] == None {
        return false;
      }
      entries[h] := Some(entries[h].value.(owns := false));
      return true;
    }

    /** handle_table_destroy: every owned object is released, in slot order, and the table is empty. */
    method Destroy()
      requires Valid()
      modifies this, entries
      ensures Valid() && nextHint == 0
      ensures forall i :: 0 <= i < HANDLE_MAX ==> entries[i] == None
      ensures released == old(released) + OwnedObjects(old(entries[..]))
    {
      ghost var was := entries[..];
      for i := 0 to HANDLE_MAX
        invariant Valid()
        invariant forall j :: 0 <= j < i ==> entries[j] == None
        invariant forall j :: i <= j < HANDLE_MAX ==> entries[j] == was[j]
        invariant released == old(released) + OwnedObjects(was[..i])
      {
        assert was[..i + 1][..i] == was[..i];
        if entries[i] != None {
          if entries[i].value.owns {
            released := released + [entries[i].value.obj];
          }
          entries[i] := None;
        }
      }
      assert was[..HANDLE_MAX] == was;
      nextHint := 0;
    }
  }
}
