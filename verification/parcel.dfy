/**
 * An abstract android.os.Parcel: a buffer that values are appended to and a
 * read cursor that moves forward over them. Each value remembers which
 * write put it there, so a read of the wrong kind is detected.
 */
module Parcels {
  import opened Wrappers
  import opened Platform

  /** One value in a parcel, tagged with the kind of write that produced it. */
  datatype Value =
    | IntV(i: int32)           // writeInt
    | StrV(s: string)          // writeString
    | CompV(c: ComponentName)  // writeParcelable of a ComponentName

  /** The int at position `p`, if there is one. */
  function IntAt(s: seq<Value>, p: nat): (r: Option<int32>)
    ensures r.Some? <==> p < |s| && s[p].IntV?
    ensures r.Some? ==> s[p] == IntV(r.value)
  {
    if p < |s| && s[p].IntV? then Some(s[p].i) else None
  }

  /** The string at position `p`, if there is one. */
  function StrAt(s: seq<Value>, p: nat): (r: Option<string>)
    ensures r.Some? <==> p < |s| && s[p].StrV?
    ensures r.Some? ==> s[p] == StrV(r.value)
  {
    if p < |s| && s[p].StrV? then Some(s[p].s) else None
  }

  /** The component name at position `p`, if there is one. */
  function CompAt(s: seq<Value>, p: nat): (r: Option<ComponentName>)
    ensures r.Some? <==> p < |s| && s[p].CompV?
    ensures r.Some? ==> s[p] == CompV(r.value)
  {
    if p < |s| && s[p].CompV? then Some(s[p].c) else None
  }

  class Parcel {
    /** Everything written so far, oldest first. */
    var items: seq<Value>
    /** The index of the next value a read returns. */
    var pos: nat

    /** An empty parcel, positioned at its start. */
    constructor ()
      ensures items == [] && pos == 0
    {
      items := [];
      pos := 0;
    }

    /** Appends an int; what was already written and the cursor stay as they were. */
    method WriteInt(v: int32)
      modifies this
      ensures items == old(items) + [IntV(v)]
      ensures pos == old(pos)
    {
      items := items + [IntV(v)];
    }

    /** Appends a string. */
    method WriteString(v: string)
      modifies this
      ensures items == old(items) + [StrV(v)]
      ensures pos == old(pos)
    {
      items := items + [StrV(v)];
    }

    /**
     * Appends a component name. The flags are handed on to the component's
     * own encoder, which this model takes as storing the value unchanged.
     */
    method WriteParcelable(c: ComponentName, flags: int32)
      modifies this
      ensures items == old(items) + [CompV(c)]
      ensures pos == old(pos)
    {
      items := items + [CompV(c)];
    }

    /**
     * Reads the int at the cursor and moves past it. When the cursor is at
     * the end or on a value of another kind, nothing is read and the cursor stays.
     */
    method ReadInt() returns (r: Option<int32>)
      modifies this
      ensures items == old(items)
      ensures r == IntAt(items, old(pos))
      ensures pos == if r.Some? then old(pos) + 1 else old(pos)
    {
      r := IntAt(items, pos);
      if r.Some? {
        pos := pos + 1;
      }
    }

    /** Reads the string at the cursor and moves past it, as ReadInt does. */
    method ReadString() returns (r: Option<string>)
      modifies this
      ensures items == old(items)
      ensures r == StrAt(items, old(pos))
      ensures pos == if r.Some? then old(pos) + 1 else old(pos)
    {
      r := StrAt(items, pos);
      if r.Some? {
        pos := pos + 1;
      }
    }

    /** Reads the component name at the cursor and moves past it, as ReadInt does. */
    method ReadParcelable() returns (r: Option<ComponentName>)
      modifies this
      ensures items == old(items)
      ensures r == CompAt(items, old(pos))
      ensures pos == if r.Some? then old(pos) + 1 else old(pos)
    {
      r := CompAt(items, pos);
      if r.Some? {
        pos := pos + 1;
      }
    }
  }
}
