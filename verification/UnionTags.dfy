/**
  The numbers a union's fields are tagged with: the ones written with '@', and the ones the
  parser hands to the fields without.
 */
module UnionTags {
  import Graph
  import opened Wrappers

  /** The tag written behind a field's name, if there is one. */
  type Written = Option<nat>

  function ExplicitTags(fields: seq<Written>): set<nat> {
    set i | 0 <= i < |fields| && fields[i].Some? :: fields[i].value
  }

  /** t went to an untagged field before field i. */
  predicate Given(fields: seq<Written>, tags: seq<nat>, i: nat, t: nat)
    requires |tags| == |fields| && i <= |fields|
  {
    exists j :: 0 <= j < i && fields[j].None? && tags[j] == t
  }

  /** A written tag stays; an untagged field has the least number not written anywhere and not given before. */
  predicate IsTag(fields: seq<Written>, tags: seq<nat>, i: nat)
    requires |tags| == |fields| && i < |fields|
  {
    match fields[i]
    case Some(t) => tags[i] == t
    case None =>
      && tags[i] !in ExplicitTags(fields)
      && (forall j :: 0 <= j < i && fields[j].None? ==> tags[j] < tags[i])
      && forall t: nat :: t < tags[i] ==> t in ExplicitTags(fields) || Given(fields, tags, i, t)
  }

  predicate AreTags(fields: seq<Written>, tags: seq<nat>) {
    |tags| == |fields| && forall i :: 0 <= i < |fields| ==> IsTag(fields, tags, i)
  }

  /** The field loop, and the second pass over a union that mixes both kinds. */
  method AssignTags(fields: seq<Written>) returns (tags: seq<nat>)
    ensures AreTags(fields, tags)
  {
    tags := [];
    var anyExplicit, anyImplicit, nextImplicit := false, false, 0;
    for i := 0 to |fields|
      invariant |tags| == i
      invariant anyExplicit <==> exists j :: 0 <= j < i && fields[j].Some?
      invariant anyImplicit <==> exists j :: 0 <= j < i && fields[j].None?
      invariant forall j :: 0 <= j < i ==> fields[j].Some? ==> tags[j] == fields[j].value
      invariant !anyExplicit ==> nextImplicit == i && forall j :: 0 <= j < i ==> tags[j] == j
    {
      if fields[i].Some? {
        tags := tags + [fields[i].value];
        anyExplicit := true;
      } else {
        tags := tags + [nextImplicit];
        nextImplicit := nextImplicit + 1;
        anyImplicit := true;
      }
    }
    if anyExplicit && anyImplicit {
      tags := FillIn(fields, tags);
    } else if anyImplicit {
      assert forall i :: 0 <= i < |fields| ==> fields[i].None?;
      assert ExplicitTags(fields) == {};
      forall i | 0 <= i < |fields| ensures IsTag(fields, tags, i) {
        forall t: nat | t < tags[i] ensures Given(fields, tags, i, t) { assert tags[t] == t; }
      }
    }
  }

  method FillIn(fields: seq<Written>, first: seq<nat>) returns (tags: seq<nat>)
    requires |first| == |fields| && forall j :: 0 <= j < |fields| ==> fields[j].Some? ==> first[j] == fields[j].value
    ensures AreTags(fields, tags)
  {
    tags := first;
    ghost var written := ExplicitTags(fields);
    var used := ExplicitTags(fields);
    var next := 0;
    for i := 0 to |fields|
      invariant |tags| == |fields|
      invariant forall j :: 0 <= j < |fields| ==> fields[j].Some? ==> tags[j] == fields[j].value
      invariant forall j :: 0 <= j < i ==> IsTag(fields, tags, j)
      invariant forall j :: 0 <= j < i && fields[j].None? ==> tags[j] < next
      invariant forall t :: t in used <==> t in written || Given(fields, tags, i, t)
      invariant forall t: nat :: t < next ==> t in used
    {
      hide ExplicitTags;
      if fields[i].None? {
        ghost var before := tags;
        next := NextUnused(used, next);
        tags := tags[i := next];
        GivenSame(fields, before, tags, i);
        TagsSame(fields, before, tags, i);
        GivenNext(fields, tags, i);
        used := used + {next};
        next := next + 1;
      } else {
        GivenNext(fields, tags, i);
      }
    }
  }

  /** `while (used.count(next)) ++next;` */
  method NextUnused(used: set<nat>, start: nat) returns (next: nat)
    ensures next >= start && next !in used && forall t: nat :: start <= t < next ==> t in used
  {
    next := start;
    while next in used
      invariant next >= start && forall t: nat :: start <= t < next ==> t in used
      decreases set t | t in used && t >= next
    {
      ghost var left, rest := set t | t in used && t >= next, set t | t in used && t >= next + 1;
      assert rest < left by { assert next in left && next !in rest; }
      next := next + 1;
    }
  }

  lemma GivenSame(fields: seq<Written>, a: seq<nat>, b: seq<nat>, i: nat)
    requires |a| == |fields| == |b| && i <= |fields| && a[..i] == b[..i]
    ensures forall j, t :: 0 <= j <= i ==> (Given(fields, a, j, t) <==> Given(fields, b, j, t))
  {
    assert forall k :: 0 <= k < i ==> a[k] == a[..i][k] == b[..i][k] == b[k];
    forall j, t | 0 <= j <= i ensures Given(fields, a, j, t) <==> Given(fields, b, j, t) {
      if Given(fields, a, j, t) {
        var k :| 0 <= k < j && fields[k].None? && a[k] == t;
        assert b[k] == t;
      }
      if Given(fields, b, j, t) {
        var k :| 0 <= k < j && fields[k].None? && b[k] == t;
        assert a[k] == t;
      }
    }
  }

  lemma TagsSame(fields: seq<Written>, a: seq<nat>, b: seq<nat>, i: nat)
    requires |a| == |fields| == |b| && i <= |fields| && a[..i] == b[..i]
    requires forall j :: 0 <= j < i ==> IsTag(fields, a, j)
    ensures forall j :: 0 <= j < i ==> IsTag(fields, b, j)
  {
    hide ExplicitTags, Given;
    GivenSame(fields, a, b, i);
    assert forall k :: 0 <= k < i ==> a[k] == a[..i][k] == b[..i][k] == b[k];
    forall j | 0 <= j < i ensures IsTag(fields, b, j) {
      assert IsTag(fields, a, j);
    }
  }

  lemma GivenNext(fields: seq<Written>, tags: seq<nat>, i: nat)
    requires |tags| == |fields| && i < |fields|
    ensures forall t :: Given(fields, tags, i + 1, t) <==> Given(fields, tags, i, t) || (fields[i].None? && tags[i] == t)
  {
    forall t: nat ensures Given(fields, tags, i + 1, t) <==> Given(fields, tags, i, t) || (fields[i].None? && tags[i] == t) {
      if Given(fields, tags, i, t) {
        var j :| 0 <= j < i && fields[j].None? && tags[j] == t;
        assert 0 <= j < i + 1;
      }
    }
  }

  predicate ExplicitDistinct(fields: seq<Written>) {
    forall i, j :: 0 <= i < j < |fields| && fields[i].Some? && fields[j].Some? ==> fields[i].value != fields[j].value
  }

  /**
    The parser never compares written tags, so a union can end up with the same tag twice; it
    does so exactly when the same tag was written twice.
   */
  lemma TagsAreDistinct(fields: seq<Written>, tags: seq<nat>)
    requires AreTags(fields, tags)
    ensures Graph.Distinct(tags) <==> ExplicitDistinct(fields)
  {
    forall i, j | 0 <= i < j < |fields| && (fields[i].None? || fields[j].None?) ensures tags[i] != tags[j] {
      assert IsTag(fields, tags, i) && IsTag(fields, tags, j);
      if fields[i].Some? { assert fields[i].value in ExplicitTags(fields); }
      if fields[j].Some? { assert fields[j].value in ExplicitTags(fields); }
    }
    forall i, j | 0 <= i < j < |fields| && fields[i].Some? && fields[j].Some?
      ensures tags[i] == fields[i].value && tags[j] == fields[j].value
    {
      assert IsTag(fields, tags, i) && IsTag(fields, tags, j);
    }
  }

  /** Nothing else is left open: the rule fixes the tags. */
  lemma {:induction false} TagsAreUnique(fields: seq<Written>, a: seq<nat>, b: seq<nat>, n: nat)
    requires AreTags(fields, a) && AreTags(fields, b) && n <= |fields|
    ensures a[..n] == b[..n]
  {
    if n > 0 {
      TagsAreUnique(fields, a, b, n - 1);
      var i := n - 1;
      assert IsTag(fields, a, i) && IsTag(fields, b, i);
      GivenSame(fields, a, b, i);
      if fields[i].None? {
        assert !Given(fields, a, i, a[i]) && !Given(fields, b, i, b[i]);
      }
      assert a[..n] == a[..i] + [a[i]] && b[..n] == b[..i] + [b[i]];
    }
  }
}
