/**
 * BrushLibrary: the ordered collection of presets the brush list shows,
 * starting with five built-in presets, extended by Add and shrunk by Remove.
 * The static collection of the source is an object here.
 */
module Brushes {
  import opened BrushPresets

  /** The position of the first occurrence of `x` in `s`. */
  function FirstIndex<T(==)>(s: seq<T>, x: T): (i: nat)
    requires x in s
    ensures i < |s| && s[i] == x && x !in s[..i]
    decreases |s|
  {
    if s[0] == x then 0 else 1 + FirstIndex(s[1..], x)
  }

  /** `Collection<T>.Remove`: drops the first element equal to `x`, if any. */
  function RemoveFirst<T(==)>(s: seq<T>, x: T): seq<T>
    decreases |s|
  {
    if s == [] then []
    else if s[0] == x then s[1..]
    else [s[0]] + RemoveFirst(s[1..], x)
  }

  /**
   * Removing `x` deletes exactly the element at its first position and keeps
   * the order of the rest; without an occurrence nothing changes.
   */
  lemma {:induction false} RemoveFirstDeletesFirstOccurrence<T>(s: seq<T>, x: T)
    ensures x !in s ==> RemoveFirst(s, x) == s
    ensures x in s ==> RemoveFirst(s, x) == s[..FirstIndex(s, x)] + s[FirstIndex(s, x) + 1..]
    decreases |s|
  {
    if s != [] && s[0] != x {
      RemoveFirstDeletesFirstOccurrence(s[1..], x);
      if x in s {
        assert x in s[1..];
        var i := FirstIndex(s[1..], x);
        assert s[1..][..i] == s[1..i + 1];
        assert s[1..][i + 1..] == s[i + 2..];
        assert [s[0]] + s[1..i + 1] == s[..i + 1];
      } else {
        assert [s[0]] + s[1..] == s;
      }
    }
  }

  /** Removal shortens the collection by one exactly when `x` was present. */
  lemma RemoveFirstLength<T>(s: seq<T>, x: T)
    ensures |RemoveFirst(s, x)| == if x in s then |s| - 1 else |s|
  {
    RemoveFirstDeletesFirstOccurrence(s, x);
  }

  /** Adding an element that was absent and then removing it restores the collection. */
  lemma {:induction false} AddThenRemove<T>(s: seq<T>, x: T)
    requires x !in s
    ensures RemoveFirst(s + [x], x) == s
    decreases |s|
  {
    if s != [] {
      assert (s + [x])[1..] == s[1..] + [x];
      AddThenRemove(s[1..], x);
    }
  }

  class BrushLibrary {
    var brushes: seq<BrushPreset>

    /** The five built-in presets, in list order. */
    constructor ()
      ensures |brushes| == 5
      ensures forall i :: 0 <= i < 5 ==> fresh(brushes[i])
      ensures forall i, j :: 0 <= i < j < 5 ==> brushes[i] != brushes[j]
      ensures brushes[0].IsBuiltIn("Pencil", 2.0, 255, 0.10, false)
      ensures brushes[1].IsBuiltIn("Ink Pen", 5.0, 255, 0.25, false)
      ensures brushes[2].IsBuiltIn("Soft Brush", 20.0, 60, 0.10, false)
      ensures brushes[3].IsBuiltIn("Marker", 15.0, 180, 0.10, false)
      ensures brushes[4].IsBuiltIn("Eraser", 20.0, 255, 0.25, true)
    {
      var pencil := new BrushPreset("Pencil", 2.0, 255, 0.10, false, false, null);
      var inkPen := new BrushPreset("Ink Pen", 5.0, 255, 0.25, false, false, null);
      var softBrush := new BrushPreset("Soft Brush", 20.0, 60, 0.10, false, false, null);
      var marker := new BrushPreset("Marker", 15.0, 180, 0.10, false, false, null);
      var eraser := new BrushPreset("Eraser", 20.0, 255, 0.25, true, false, null);
      brushes := [pencil, inkPen, softBrush, marker, eraser];
    }

    /** Appends `brush`; a null argument is ignored and duplicates are kept. */
    method Add(brush: BrushPreset?)
      modifies this
      ensures brush == null ==> brushes == old(brushes)
      ensures brush != null ==> brushes == old(brushes) + [brush]
    {
      if brush == null {
        return;
      }
      brushes := brushes + [brush];
    }

    /** Removes the first occurrence of `brush` by reference; a null argument is ignored. */
    method Remove(brush: BrushPreset?)
      modifies this
      ensures brush == null ==> brushes == old(brushes)
      ensures brush != null ==> brushes == RemoveFirst<BrushPreset>(old(brushes), brush)
    {
      if brush == null {
        return;
      }
      var b: BrushPreset := brush;
      brushes := RemoveFirst(brushes, b);
    }
  }
}
