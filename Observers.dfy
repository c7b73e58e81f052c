/** The two one-shot intersection watchers: `generalObserver`, which adds the
    `animate-in` class, and `imageObserver`, which copies `data-src` into
    `src`. Elements are identifiers; a notification batch is the sequence of
    entries the browser passes to the callback, each with its target and its
    `isIntersecting` flag. */
module Observers {

  type ElementId = nat

  datatype Entry = Entry(target: ElementId, isIntersecting: bool)

  /** The targets of the intersecting entries of a batch. */
  function Reached(entries: seq<Entry>): (r: set<ElementId>)
    ensures forall id :: id in r <==>
              exists i :: 0 <= i < |entries| && entries[i].isIntersecting && entries[i].target == id
  {
    if entries == [] then {}
    else
      var last := entries[|entries| - 1];
      Reached(entries[..|entries| - 1]) + (if last.isIntersecting then {last.target} else {})
  }

  /** `generalObserver` over the elements given the base `animate` class. */
  class RevealWatcher {
    /** The elements still observed. */
    var observed: set<ElementId>
    /** The elements whose class list holds `animate-in`. */
    var animated: set<ElementId>

    /** No element is both still observed and already activated. */
    predicate Valid()
      reads this
    {
      observed !! animated
    }

    constructor (elements: set<ElementId>)
      ensures Valid() && observed == elements && animated == {}
    {
      observed, animated := elements, {};
    }

    /** The observer callback: each intersecting entry activates its target
        and stops observing it; other entries change nothing. */
    method Notify(entries: seq<Entry>)
      requires Valid()
      modifies this
      ensures Valid()
      ensures animated == old(animated) + Reached(entries)
      ensures observed == old(observed) - Reached(entries)
    {
      var i := 0;
      while i < |entries|
        invariant 0 <= i <= |entries|
        invariant animated == old(animated) + Reached(entries[..i])
        invariant observed == old(observed) - Reached(entries[..i])
      {
        assert entries[..i + 1][..i] == entries[..i];
        var entry := entries[i];
        if entry.isIntersecting {
          animated := animated + {entry.target};
          observed := observed - {entry.target};
        }
        i := i + 1;
      }
      assert entries[..i] == entries;
    }
  }

  /** The state `imageObserver` touches: the observed images, each image's
      `src` and its `data-src` attribute. */
  datatype Images = Images(observed: set<ElementId>, src: map<ElementId, string>, dataSrc: map<ElementId, string>)

  /** Reading `img.dataset.src` after `data-src` was removed gives
      `undefined`, which `src` stores as this string. */
  const Undefined: string := "undefined"

  /** One intersecting entry for `id`. */
  function Load(img: Images, id: ElementId): (r: Images)
    ensures r.observed == img.observed - {id}
    ensures id in r.src && id !in r.dataSrc
    ensures r.src[id] == if id in img.dataSrc then img.dataSrc[id] else Undefined
    ensures forall k :: k != id ==> (k in r.src <==> k in img.src) && (k in r.dataSrc <==> k in img.dataSrc)
    ensures forall k :: k != id && k in img.src ==> r.src[k] == img.src[k]
    ensures forall k :: k != id && k in img.dataSrc ==> r.dataSrc[k] == img.dataSrc[k]
  {
    var value := if id in img.dataSrc then img.dataSrc[id] else Undefined;
    Images(img.observed - {id}, img.src[id := value], img.dataSrc - {id})
  }

  /** A whole batch, entry by entry. */
  function LoadAll(img: Images, entries: seq<Entry>): (r: Images)
    ensures r.observed == img.observed - Reached(entries)
    ensures r.dataSrc == img.dataSrc - Reached(entries)
    ensures Reached(entries) <= r.src.Keys
    ensures forall id :: id !in Reached(entries) ==> (id in r.src <==> id in img.src)
    ensures forall id :: id !in Reached(entries) && id in img.src ==> r.src[id] == img.src[id]
  {
    if entries == [] then img
    else
      var before := LoadAll(img, entries[..|entries| - 1]);
      var last := entries[|entries| - 1];
      if last.isIntersecting then Load(before, last.target) else before
  }

  /** No image reached twice in one batch. */
  predicate ReachedOnce(entries: seq<Entry>)
  {
    forall i, j :: 0 <= i < j < |entries| && entries[i].isIntersecting && entries[j].isIntersecting ==>
      entries[i].target != entries[j].target
  }

  /** A batch in which each intersecting image occurs once and still carries
      `data-src`: every reached image gets its former `data-src` as `src`,
      loses `data-src` and is no longer observed; every other image keeps
      its attributes. */
  lemma {:induction false} LoadAllOnce(img: Images, entries: seq<Entry>)
    requires ReachedOnce(entries)
    requires Reached(entries) <= img.dataSrc.Keys
    ensures var r := LoadAll(img, entries);
            && r.observed == img.observed - Reached(entries)
            && r.dataSrc == img.dataSrc - Reached(entries)
            && (forall id :: id in Reached(entries) ==> id in r.src && r.src[id] == img.dataSrc[id])
            && (forall id :: id !in Reached(entries) ==> (id in r.src <==> id in img.src))
            && (forall id :: id !in Reached(entries) && id in img.src ==> r.src[id] == img.src[id])
  {
    if entries != [] {
      var init := entries[..|entries| - 1];
      var last := entries[|entries| - 1];
      assert ReachedOnce(init);
      LoadAllOnce(img, init);
      if last.isIntersecting {
        assert last.target !in Reached(init);
      }
    }
  }

  /** The as-written consequence for a repeated entry: the second one finds
      `data-src` gone and stores "undefined" as `src`. */
  lemma RepeatedEntryLosesSource(img: Images, id: ElementId)
    ensures LoadAll(img, [Entry(id, true), Entry(id, true)]).src[id] == Undefined
  {
    assert [Entry(id, true), Entry(id, true)][..1] == [Entry(id, true)];
    assert [Entry(id, true)][..0] == [];
  }

  /** `imageObserver` over the images selected by `img[data-src]`. */
  class LazyImages {
    var observed: set<ElementId>
    var src: map<ElementId, string>
    var dataSrc: map<ElementId, string>

    function View(): Images
      reads this
    {
      Images(observed, src, dataSrc)
    }

    /** Every observed image still carries `data-src`. */
    predicate Valid()
      reads this
    {
      observed <= dataSrc.Keys
    }

    /** Observation starts on every image that carries `data-src`. */
    constructor (src: map<ElementId, string>, dataSrc: map<ElementId, string>)
      ensures Valid() && View() == Images(dataSrc.Keys, src, dataSrc)
    {
      observed, this.src, this.dataSrc := dataSrc.Keys, src, dataSrc;
    }

    /** The observer callback, entry by entry. */
    method Notify(entries: seq<Entry>)
      requires Valid()
      modifies this
      ensures Valid()
      ensures View() == LoadAll(old(View()), entries)
    {
      var i := 0;
      while i < |entries|
        invariant 0 <= i <= |entries|
        invariant Valid()
        invariant View() == LoadAll(old(View()), entries[..i])
      {
        assert entries[..i + 1][..i] == entries[..i];
        var entry := entries[i];
        if entry.isIntersecting {
          var image := entry.target;
          src := src[image := if image in dataSrc then dataSrc[image] else Undefined];
          dataSrc := dataSrc - {image};
          observed := observed - {image};
        }
        i := i + 1;
      }
      assert entries[..i] == entries;
    }
  }
}
