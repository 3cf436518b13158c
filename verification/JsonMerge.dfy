/** JSON Merge Patch, section 2 of RFC 7396. */
module JsonMerge {
  import opened JsonValue

  function MembersOf(target: Json): map<string, Json> {
    if target.Object? then target.members else map[]
  }

  function MemberOrNull(m: map<string, Json>, k: string): Json {
    if k in m then m[k] else Null
  }

  /** MergePatch as the RFC defines it: the member for every name at once. */
  function Merge(target: Json, patch: Json): Json
    decreases patch
  {
    if !patch.Object? then patch
    else
      var t, p := MembersOf(target), patch.members;
      Object(map k | k in t.Keys + p.Keys && (k in p ==> !p[k].Null?) ::
               if k in p then Merge(MemberOrNull(t, k), p[k]) else t[k])
  }

  /** The target's members once all but the `rest` of the patch has been applied. */
  ghost function PartlyMerged(t: map<string, Json>, p: map<string, Json>, rest: set<string>): map<string, Json> {
    map k | k in t.Keys + (p.Keys - rest) && (k in p && k !in rest ==> !p[k].Null?) ::
      if k in p && k !in rest then Merge(MemberOrNull(t, k), p[k]) else t[k]
  }

  lemma MergeOneMore(t: map<string, Json>, p: map<string, Json>, rest: set<string>, key: string)
    requires key in rest && key in p
    ensures
      var members := PartlyMerged(t, p, rest);
      PartlyMerged(t, p, rest - {key}) ==
      if p[key].Null? then members - {key}
      else members[key := Merge(MemberOrNull(members, key), p[key])]
  {
    assert MemberOrNull(PartlyMerged(t, p, rest), key) == MemberOrNull(t, key);
  }

  /** merge_patch(): member by member, in whatever order the patch lists them. */
  method MergePatch(target: Json, patch: Json) returns (result: Json)
    ensures result == Merge(target, patch)
    decreases patch
  {
    if !patch.Object? {
      return patch;
    }
    var start := MembersOf(target);
    var members, rest := start, patch.members.Keys;
    assert PartlyMerged(start, patch.members, rest) == start;
    while rest != {}
      invariant rest <= patch.members.Keys
      invariant members == PartlyMerged(start, patch.members, rest)
    {
      var key :| key in rest;
      MergeOneMore(start, patch.members, rest, key);
      if patch.members[key].Null? {
        members := members - {key};
      } else {
        var merged := MergePatch(MemberOrNull(members, key), patch.members[key]);
        members := members[key := merged];
      }
      rest := rest - {key};
    }
    assert members == Merge(target, patch).members;
    return Object(members);
  }

  /** Applying a patch a second time changes nothing. */
  lemma {:induction false} MergeTwice(target: Json, patch: Json)
    ensures Merge(Merge(target, patch), patch) == Merge(target, patch)
    decreases patch
  {
    if patch.Object? {
      var once, p := Merge(target, patch).members, patch.members;
      forall k | k in p && !p[k].Null? ensures Merge(MemberOrNull(once, k), p[k]) == once[k] {
        MergeTwice(MemberOrNull(MembersOf(target), k), p[k]);
      }
      assert Merge(Object(once), patch).members == once;
    }
  }

  /** The value `v` is found along `path`, from object to object. */
  predicate Holds(j: Json, path: seq<string>, v: Json)
    decreases |path|
  {
    if path == [] then j == v
    else j.Object? && path[0] in j.members && Holds(j.members[path[0]], path[1..], v)
  }

  /** The patch names something along `path`, up to its end. */
  predicate Names(patch: Json, path: seq<string>)
    decreases |path|
  {
    !patch.Object? || path == [] || (path[0] in patch.members && Names(patch.members[path[0]], path[1..]))
  }

  /** What the patch does not name is as it was: nothing there is changed, removed or made. */
  lemma {:induction false} UnnamedStays(target: Json, patch: Json, path: seq<string>, v: Json)
    requires !Names(patch, path)
    ensures Holds(Merge(target, patch), path, v) <==> Holds(target, path, v)
    decreases |path|
  {
    var key, p := path[0], patch.members;
    if key in p {
      UnnamedStays(MemberOrNull(MembersOf(target), key), p[key], path[1..], v);
    }
  }

  /** What the patch sets, at any depth, is there afterwards; and what it names with a null is not. */
  lemma {:induction false} NamedIsSet(target: Json, patch: Json, path: seq<string>, v: Json, w: Json)
    requires Holds(patch, path, v) && !v.Object? && path != []
    ensures Holds(Merge(target, patch), path, w) <==> v == w && !v.Null?
    decreases |path|
  {
    var key, p := path[0], patch.members;
    MergedMember(target, patch, key);
    if |path| > 1 {
      NamedIsSet(MemberOrNull(MembersOf(target), key), p[key], path[1..], v, w);
    } else {
      assert p[key] == v;
    }
  }

  lemma MergedMember(target: Json, patch: Json, key: string)
    requires patch.Object? && key in patch.members
    ensures
      var r, part := Merge(target, patch), patch.members[key];
      && r.Object? && (key in r.members <==> !part.Null?)
      && (!part.Null? ==> r.members[key] == Merge(MemberOrNull(MembersOf(target), key), part))
  {
  }

  /** No member of an object, however deep, is null; arrays are not looked into. */
  predicate NoNullMembers(j: Json) {
    j.Object? ==> forall k :: k in j.members ==> !j.members[k].Null? && NoNullMembers(j.members[k])
  }

  /** A null in a patch always means removal, so none survives as a member. */
  lemma {:induction false} MergeLeavesNoNulls(target: Json, patch: Json)
    requires NoNullMembers(target) && patch.Object?
    ensures NoNullMembers(Merge(target, patch))
    decreases patch
  {
    var t, p, merged := MembersOf(target), patch.members, Merge(target, patch).members;
    forall k | k in merged ensures !merged[k].Null? && NoNullMembers(merged[k]) {
      assert merged[k] == if k in p then Merge(MemberOrNull(t, k), p[k]) else t[k];
      if k in p && p[k].Object? {
        MergeLeavesNoNulls(MemberOrNull(t, k), p[k]);
      }
    }
  }
}

/** Releasing a value without recursion: json_value::destroy. */
module JsonDestroy {
  import opened JsonValue

  /** The value and everything below it. */
  ghost function Nodes(j: Json): multiset<Json>
    decreases j, 1
  {
    multiset{j} + Below(j)
  }

  ghost function Below(j: Json): multiset<Json>
    decreases j, 0
  {
    match j
    case Array(elems) => NodesOfAll(elems)
    case Object(members) => NodesOfMembers(members, members.Keys)
    case _ => multiset{}
  }

  ghost function NodesOfAll(s: seq<Json>): multiset<Json>
    decreases s, 2
  {
    if s == [] then multiset{} else Nodes(s[0]) + NodesOfAll(s[1..])
  }

  ghost function NodesOfMembers(m: map<string, Json>, keys: set<string>): multiset<Json>
    requires keys <= m.Keys
    decreases Object(m), 0, keys
  {
    if keys == {} then multiset{}
    else
      var k :| k in keys;
      Nodes(m[k]) + NodesOfMembers(m, keys - {k})
  }

  /** The members can be counted in any order. */
  lemma {:induction false} CountMember(m: map<string, Json>, keys: set<string>, k: string)
    requires keys <= m.Keys && k in keys
    ensures NodesOfMembers(m, keys) == Nodes(m[k]) + NodesOfMembers(m, keys - {k})
    decreases keys
  {
    var first :| first in keys && NodesOfMembers(m, keys) == Nodes(m[first]) + NodesOfMembers(m, keys - {first});
    if first != k {
      CountMember(m, keys - {first}, k);
      CountMember(m, keys - {k}, first);
      assert keys - {first} - {k} == keys - {k} - {first};
    }
  }

  lemma {:induction false} NodesOfConcat(a: seq<Json>, b: seq<Json>)
    ensures NodesOfAll(a + b) == NodesOfAll(a) + NodesOfAll(b)
  {
    if a == [] {
      assert a + b == b;
    } else {
      assert (a + b)[1..] == a[1..] + b;
      NodesOfConcat(a[1..], b);
    }
  }

  /** What is left of a value once its children have been moved out. */
  function Husk(j: Json): Json {
    match j
    case Array(_) => Array([])
    case Object(_) => Object(map[])
    case _ => j
  }

  lemma NodesOfOne(j: Json)
    ensures NodesOfAll([j]) == multiset{j} + Below(j)
  {
    assert NodesOfAll([j]) == Nodes(j);
  }

  lemma MemberMoved(stack: seq<Json>, members: map<string, Json>, rest: set<string>, key: string)
    requires rest <= members.Keys && key in rest
    ensures NodesOfAll(stack + [members[key]]) + NodesOfMembers(members, rest - {key}) ==
            NodesOfAll(stack) + NodesOfMembers(members, rest)
  {
    CountMember(members, rest, key);
    NodesOfConcat(stack, [members[key]]);
    NodesOfOne(members[key]);
  }

  lemma BelowArray(elems: seq<Json>)
    ensures Below(Array(elems)) == NodesOfAll(elems)
  {
  }

  lemma BelowObject(members: map<string, Json>)
    ensures Below(Object(members)) == NodesOfMembers(members, members.Keys)
  {
  }

  /** Moves the children of an array or object to the end of the stack. */
  method MoveChildren(item: Json, stack: seq<Json>) returns (grown: seq<Json>)
    ensures NodesOfAll(grown) == NodesOfAll(stack) + Below(item)
  {
    grown := stack;
    match item {
      case Array(elems) =>
        BelowArray(elems);
        NodesOfConcat(stack, elems);
        grown := stack + elems;
      case Object(members) =>
        BelowObject(members);
        grown := MoveMembers(members, stack);
      case _ =>
    }
  }

  method MoveMembers(members: map<string, Json>, stack: seq<Json>) returns (grown: seq<Json>)
    ensures NodesOfAll(grown) == NodesOfAll(stack) + NodesOfMembers(members, members.Keys)
  {
    grown := stack;
    var rest := members.Keys;
    ghost var all := NodesOfAll(stack) + NodesOfMembers(members, rest);
    while rest != {}
      invariant rest <= members.Keys && NodesOfAll(grown) + NodesOfMembers(members, rest) == all
    {
      var key :| key in rest;
      MemberMoved(grown, members, rest, key);
      grown := grown + [members[key]];
      rest := rest - {key};
    }
  }

  lemma Rearrange(a: multiset<Json>, x: Json, b: multiset<Json>)
    ensures a + (multiset{x} + b) == multiset{x} + (a + b)
  {
  }

  lemma PopLast(stack: seq<Json>)
    requires stack != []
    ensures
      var item, rest := stack[|stack| - 1], stack[..|stack| - 1];
      NodesOfAll(stack) == multiset{item} + (NodesOfAll(rest) + Below(item))
  {
    var item, rest := stack[|stack| - 1], stack[..|stack| - 1];
    assert stack == rest + [item];
    NodesOfConcat(rest, [item]);
    NodesOfOne(item);
    Rearrange(NodesOfAll(rest), item, Below(item));
  }

  /** The last item leaves the stack, and its children take its place. */
  method TakeLast(stack: seq<Json>) returns (item: Json, rest: seq<Json>)
    requires stack != []
    ensures item == stack[|stack| - 1] && NodesOfAll(stack) == multiset{item} + NodesOfAll(rest)
  {
    item := stack[|stack| - 1];
    PopLast(stack);
    rest := MoveChildren(item, stack[..|stack| - 1]);
  }

  lemma ItemReleased(released: seq<Json>, all: multiset<Json>, item: Json, before: multiset<Json>,
                     after: multiset<Json>)
    requires multiset(released) + before == all && before == multiset{item} + after
    ensures multiset(released + [item]) + after == all
  {
    assert multiset(released + [item]) == multiset(released) + multiset{item};
  }

  /**
    Every descendant is taken from the stack exactly once, and what is destructed in the loop has no children left:
    the recursion of destructors stops at once. The stack holds ever fewer nodes, so the loop ends.
  */
  method Destroy(root: Json) returns (released: seq<Json>, destructed: seq<Json>)
    ensures multiset(released) == Below(root)
    ensures |destructed| == |released| && forall i :: 0 <= i < |released| ==> destructed[i] == Husk(released[i])
    ensures forall i :: 0 <= i < |destructed| ==> Below(destructed[i]) == multiset{}
  {
    released, destructed := [], [];
    var stack := MoveChildren(root, []);
    while stack != []
      invariant multiset(released) + NodesOfAll(stack) == Below(root)
      invariant |destructed| == |released| && forall i :: 0 <= i < |released| ==> destructed[i] == Husk(released[i])
      decreases |NodesOfAll(stack)|
    {
      ghost var before := NodesOfAll(stack);
      var item;
      item, stack := TakeLast(stack);
      ItemReleased(released, Below(root), item, before, NodesOfAll(stack));
      released := released + [item];
      destructed := destructed + [Husk(item)];
    }
    forall i | 0 <= i < |destructed| ensures Below(destructed[i]) == multiset{} {
      HuskIsEmpty(released[i]);
    }
  }

  lemma HuskIsEmpty(j: Json)
    ensures Below(Husk(j)) == multiset{}
  {
    var empty: map<string, Json> := map[];
    assert empty.Keys == {};
  }
}
