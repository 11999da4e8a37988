/** The change tracker: which fields `set` changed since the last load or
    update, and the history of values each was given. */
module ChangeTracker {
  import opened Wrappers
  import opened PhpValue
  import opened PhpArray
  import opened Store

  /** A value that is neither null nor an array. */
  predicate Plain(v: Value) { v != VNull && !v.VList? }

  /** `set` marks a change when the field is unset or null, or when its current
      value is loosely different from the new one. */
  predicate ShouldRecord(current: Option<Value>, v: Value)
  {
    !IsSet(current) || !LooseEq(current.value, v)
  }

  /** `modifiedFields($f, $v)` on one slot: an empty (unset or null) slot
      takes the bare value; a slot holding a non-array value becomes the list
      `[old, new]`; a slot holding an array gets the new value appended. */
  function NextSlot(slot: Option<Value>, v: Value): Value
  {
    match slot
    case None => v
    case Some(x) =>
      if x == VNull then v
      else if x.VList? then VList(x.items + [v])
      else VList([x, v])
  }

  /** `modifiedFields($f, $v)` on the whole tracker. */
  function Track(mf: Fields, f: string, v: Value): (r: Fields)
    ensures Lookup(r, f) == Some(NextSlot(Lookup(mf, f), v))
    ensures forall g :: g != f ==> Lookup(r, g) == Lookup(mf, g)
  {
    Put(mf, f, NextSlot(Lookup(mf, f), v))
  }

  /** A field already tracked keeps its place; a newly tracked one goes last. */
  lemma TrackKeys(mf: Fields, f: string, v: Value)
    ensures Keys(Track(mf, f, v)) == if f in Keys(mf) then Keys(mf) else Keys(mf) + [f]
  {
    PutKeys(mf, f, NextSlot(Lookup(mf, f), v));
  }

  lemma TrackFirst(mf: Fields, f: string, v: Value)
    requires !IsSet(Lookup(mf, f))
    ensures Lookup(Track(mf, f, v), f) == Some(v)
  {
  }

  lemma TrackSecond(mf: Fields, f: string, v: Value)
    requires Lookup(mf, f).Some? && Plain(Lookup(mf, f).value)
    ensures Lookup(Track(mf, f, v), f) == Some(VList([Lookup(mf, f).value, v]))
  {
  }

  lemma TrackAppend(mf: Fields, f: string, xs: seq<Value>, v: Value)
    requires Lookup(mf, f) == Some(VList(xs))
    ensures Lookup(Track(mf, f, v), f) == Some(VList(xs + [v]))
  {
  }

  /** The slot after recording the values `vs`, in order. */
  function SlotAll(slot: Option<Value>, vs: seq<Value>): Option<Value>
  {
    if vs == [] then slot else Some(NextSlot(SlotAll(slot, vs[..|vs| - 1]), vs[|vs| - 1]))
  }

  /** The tracker after recording the values `vs` for field `f`, in order. */
  function TrackAll(mf: Fields, f: string, vs: seq<Value>): Fields
  {
    if vs == [] then mf else Track(TrackAll(mf, f, vs[..|vs| - 1]), f, vs[|vs| - 1])
  }

  /** Recording values for one field changes that field's slot as `SlotAll`
      says and leaves every other field's slot alone. */
  lemma {:induction false} TrackAllSlots(mf: Fields, f: string, vs: seq<Value>, g: string)
    ensures Lookup(TrackAll(mf, f, vs), g) == if g == f then SlotAll(Lookup(mf, f), vs) else Lookup(mf, g)
  {
    if vs != [] {
      TrackAllSlots(mf, f, vs[..|vs| - 1], g);
    }
  }

  /** The history of one slot: after one change it holds that value; after
      two or more it holds the list of all of them in order. */
  lemma {:induction false} SlotHistory(vs: seq<Value>)
    requires vs != [] && forall i :: 0 <= i < |vs| ==> Plain(vs[i])
    ensures SlotAll(None, vs) == Some(if |vs| == 1 then vs[0] else VList(vs))
  {
    var front, last := vs[..|vs| - 1], vs[|vs| - 1];
    if |vs| == 1 {
      assert front == [];
    } else {
      SlotHistory(front);
      if |front| == 1 {
        assert vs == [front[0], last];
      } else {
        assert front + [last] == vs;
      }
    }
  }

  /** The history of one field, on the whole tracker. */
  lemma TrackHistory(mf: Fields, f: string, vs: seq<Value>)
    requires Lookup(mf, f).None?
    requires vs != [] && forall i :: 0 <= i < |vs| ==> Plain(vs[i])
    ensures Lookup(TrackAll(mf, f, vs), f) == Some(if |vs| == 1 then vs[0] else VList(vs))
  {
    TrackAllSlots(mf, f, vs, f);
    SlotHistory(vs);
  }

  /** A first change to null leaves the slot unset for `isset`, so the next
      change overwrites it instead of starting a list. */
  lemma TrackAfterNull(mf: Fields, f: string, v: Value)
    ensures Lookup(Track(Track(mf, f, VNull), f, v), f) == Some(v) || Lookup(mf, f).Some?
  {
  }

  /** `isModified()`: the modification map, or false (None) when it is empty. */
  function IsModified(mf: Fields): (r: Option<Fields>)
    ensures r.None? <==> |mf| == 0
    ensures r.Some? ==> r.value == mf
  {
    if |mf| > 0 then Some(mf) else None
  }

  /** The attributes and tracker after `set($f, $v)`. */
  function SetField(attrs: Fields, mf: Fields, f: string, v: Value): (r: (Fields, Fields))
  {
    (Put(attrs, f, v), if ShouldRecord(Lookup(attrs, f), v) then Track(mf, f, v) else mf)
  }

  /** `set` always assigns the field and touches no other; it records a change
      exactly when the old value was unset, null or loosely different. */
  lemma SetAssigns(attrs: Fields, mf: Fields, f: string, v: Value)
    ensures Lookup(SetField(attrs, mf, f, v).0, f) == Some(v)
    ensures forall g :: g != f ==> Lookup(SetField(attrs, mf, f, v).0, g) == Lookup(attrs, g)
    ensures SetField(attrs, mf, f, v).1 == mf <== IsSet(Lookup(attrs, f)) && LooseEq(Lookup(attrs, f).value, v)
    ensures ShouldRecord(Lookup(attrs, f), v) ==> SetField(attrs, mf, f, v).1 == Track(mf, f, v)
  {
  }

  /** Setting a field to the non-null value it already holds records nothing. */
  lemma SetSameValue(attrs: Fields, mf: Fields, f: string)
    requires IsSet(Lookup(attrs, f))
    ensures SetField(attrs, mf, f, Lookup(attrs, f).value).1 == mf
  {
    LooseEqReflexive(Lookup(attrs, f).value);
  }

  /** Setting a null or unset field records a change even when the new value is null too. */
  lemma SetNullField(attrs: Fields, mf: Fields, f: string)
    requires !IsSet(Lookup(attrs, f))
    ensures Lookup(SetField(attrs, mf, f, VNull).1, f) == Lookup(Track(mf, f, VNull), f)
  {
  }

  /** Two differing `set`s on a field that was not yet modified, the first of
      which records a change, leave the list of both new values in its slot. */
  lemma SetTwice(attrs: Fields, mf: Fields, f: string, a: Value, b: Value)
    requires ShouldRecord(Lookup(attrs, f), a)
    requires Lookup(mf, f).None? && Plain(a) && !LooseEq(a, b)
    ensures var s1 := SetField(attrs, mf, f, a);
            var s2 := SetField(s1.0, s1.1, f, b);
            Lookup(s2.1, f) == Some(VList([a, b]))
  {
    var s1 := SetField(attrs, mf, f, a);
    assert Lookup(s1.0, f) == Some(a);
    assert Lookup(s1.1, f) == Some(a);
  }
}
