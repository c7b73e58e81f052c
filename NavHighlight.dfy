/** Active nav-link highlighting: the `highlightObserver` callback over the
    sections and the fallback run on `load` for an address with a hash. The
    links are fixed, each with its `href` attribute (absent: `None`); the
    `active` class of each link is the mutable part. */
module NavHighlight {
  import opened Wrappers

  datatype SectionEntry = SectionEntry(id: string, isIntersecting: bool)

  /** The section id of the last intersecting entry of a batch, if any. */
  function LastIntersecting(entries: seq<SectionEntry>): (r: Option<string>)
    ensures r.None? <==> forall i :: 0 <= i < |entries| ==> !entries[i].isIntersecting
    ensures r.Some? ==>
              exists i :: 0 <= i < |entries| && entries[i].isIntersecting && entries[i].id == r.value &&
                forall j :: i < j < |entries| ==> !entries[j].isIntersecting
  {
    if entries == [] then None
    else
      var last := entries[|entries| - 1];
      if last.isIntersecting then Some(last.id) else LastIntersecting(entries[..|entries| - 1])
  }

  /** The links carrying `active` are exactly those whose `href` is `target`. */
  predicate ActiveExactly(hrefs: seq<Option<string>>, active: seq<bool>, target: string)
  {
    |active| == |hrefs| && forall j :: 0 <= j < |hrefs| ==> active[j] == (hrefs[j] == Some(target))
  }

  predicate DistinctHrefs(hrefs: seq<Option<string>>)
  {
    forall j, k :: 0 <= j < k < |hrefs| && hrefs[j].Some? ==> hrefs[j] != hrefs[k]
  }

  /** With distinct hrefs, at most one link is active after a marking. */
  lemma AtMostOneActive(hrefs: seq<Option<string>>, active: seq<bool>, target: string, j: nat, k: nat)
    requires DistinctHrefs(hrefs) && ActiveExactly(hrefs, active, target)
    requires j < |active| && k < |active| && active[j] && active[k]
    ensures j == k
  {
  }

  class NavLinks {
    const hrefs: seq<Option<string>>
    var active: seq<bool>

    predicate Valid()
      reads this
    {
      |active| == |hrefs|
    }

    constructor (hrefs: seq<Option<string>>, active: seq<bool>)
      requires |active| == |hrefs|
      ensures Valid() && this.hrefs == hrefs && this.active == active
    {
      this.hrefs, this.active := hrefs, active;
    }

    /** The inner `navLinks.forEach`: remove `active` from each link, then add
        it back when the link's `href` is `target`. */
    method MarkOnly(target: string)
      requires Valid()
      modifies this
      ensures Valid() && ActiveExactly(hrefs, active, target)
    {
      var j := 0;
      while j < |hrefs|
        invariant 0 <= j <= |hrefs| && |active| == |hrefs|
        invariant forall i :: 0 <= i < j ==> active[i] == (hrefs[i] == Some(target))
      {
        active := active[j := false];
        if hrefs[j] == Some(target) {
          active := active[j := true];
        }
        j := j + 1;
      }
    }

    /** The `highlightObserver` callback: each intersecting entry re-marks the
        links for its section, so the last one in the batch wins; a batch
        without an intersecting entry changes nothing. */
    method OnIntersections(entries: seq<SectionEntry>)
      requires Valid()
      modifies this
      ensures Valid()
      ensures match LastIntersecting(entries)
              case None => active == old(active)
              case Some(id) => ActiveExactly(hrefs, active, "#" + id)
    {
      var i := 0;
      while i < |entries|
        invariant 0 <= i <= |entries| && Valid()
        invariant match LastIntersecting(entries[..i])
                  case None => active == old(active)
                  case Some(id) => ActiveExactly(hrefs, active, "#" + id)
      {
        assert entries[..i + 1][..i] == entries[..i];
        var entry := entries[i];
        if entry.isIntersecting {
          MarkOnly("#" + entry.id);
        }
        i := i + 1;
      }
      assert entries[..i] == entries;
    }

    /** The `load` listener: a non-empty `location.hash` marks the links whose
        `href` equals it; an empty one changes nothing. */
    method OnLoad(hash: string)
      requires Valid()
      modifies this
      ensures Valid()
      ensures hash == "" ==> active == old(active)
      ensures hash != "" ==> ActiveExactly(hrefs, active, hash)
    {
      if hash != "" {
        MarkOnly(hash);
      }
    }
  }
}
