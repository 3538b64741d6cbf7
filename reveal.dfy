/** Reveal-on-scroll: every element marked "hidden-el" is watched; the first
    time the watcher reports it intersecting the viewport it gains "show-el"
    and is no longer watched, so it is revealed once and for good.

    The watcher's geometry (threshold and root margin) is the browser's; a
    report is taken as given: a target and its `isIntersecting` flag. */
module RevealOnScroll {
  import opened ClassList

  const ShowEl := "show-el"

  /** One intersection report: the index of its target among the watched
      elements, and whether it is intersecting. */
  datatype Entry = Entry(target: nat, isIntersecting: bool)

  /** The targets of the intersecting reports of a batch. */
  function IntersectingTargets(entries: seq<Entry>): (targets: set<nat>)
  {
    set e | e in entries && e.isIntersecting :: e.target
  }

  /** The class lists after a batch of reports is handled in order: an
      intersecting report adds "show-el" to its target. */
  function Revealed(elements: seq<ClassSet>, entries: seq<Entry>): (r: seq<ClassSet>)
    requires forall e <- entries :: e.target < |elements|
    ensures |r| == |elements|
    ensures forall k :: 0 <= k < |elements| ==>
      r[k] == if k in IntersectingTargets(entries) then elements[k] + {ShowEl} else elements[k]
    decreases |entries|
  {
    if entries == [] then elements
    else
      var e := entries[0];
      var next := if e.isIntersecting then elements[e.target := Add(elements[e.target], ShowEl)] else elements;
      Revealed(next, entries[1..])
  }

  /** Handling a batch a second time adds nothing: each element is revealed at most once. */
  lemma RevealIdempotent(elements: seq<ClassSet>, entries: seq<Entry>)
    requires forall e <- entries :: e.target < |elements|
    ensures Revealed(Revealed(elements, entries), entries) == Revealed(elements, entries)
  {
  }

  /** The watcher and the elements it was given. */
  class RevealEngine {
    /** The class lists of the elements marked "hidden-el", in document order. */
    const elements: array<ClassSet>
    /** The indices of the elements still watched. */
    var observed: set<nat>

    /** Only real elements are watched, and an element no longer watched has been revealed. */
    ghost predicate Valid()
      reads this, elements
    {
      (forall i <- observed :: i < elements.Length) &&
      (forall k :: 0 <= k < elements.Length && k !in observed ==> ShowEl in elements[k])
    }

    /** Start-up: watch every marked element. */
    constructor (hidden: seq<ClassSet>)
      ensures Valid() && fresh(elements)
      ensures elements[..] == hidden
      ensures forall k: nat :: k in observed <==> k < |hidden|
    {
      elements := new ClassSet[|hidden|](k requires 0 <= k < |hidden| => hidden[k]);
      var watched: set<nat> := {};
      var i := 0;
      while i < |hidden|
        invariant 0 <= i <= |hidden|
        invariant forall k: nat :: k in watched <==> k < i
      {
        watched := watched + {i};
        i := i + 1;
      }
      observed := watched;
    }

    /** The watcher's callback on a batch of reports. The watcher reports
        only on elements it still watches. */
    method OnIntersect(entries: seq<Entry>)
      requires Valid()
      requires forall e <- entries :: e.target in observed
      modifies this, elements
      ensures Valid()
      ensures elements[..] == Revealed(old(elements[..]), entries)
      ensures observed == old(observed) - IntersectingTargets(entries)
      ensures observed <= old(observed)
      ensures forall e <- entries :: e.isIntersecting ==> e.target !in observed && ShowEl in elements[e.target]
    {
      var i := 0;
      while i < |entries|
        invariant 0 <= i <= |entries|
        invariant forall k :: 0 <= k < elements.Length ==>
          elements[k] == if k in IntersectingTargets(entries[..i]) then old(elements[k]) + {ShowEl} else old(elements[k])
        invariant observed == old(observed) - IntersectingTargets(entries[..i])
      {
        var e := entries[i];
        if e.isIntersecting {
          elements[e.target] := Add(elements[e.target], ShowEl);
          observed := observed - {e.target};
        }
        i := i + 1;
      }
      assert entries[..i] == entries;
    }
  }
}
