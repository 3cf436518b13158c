/** What the operations of a patch mean, section 4 of RFC 6902, read through pointers. */
module JsonOperations {
  import opened JsonResult
  import opened JsonValue
  import opened JsonPatch
  import Decimal

  ghost predicate IsOp(val: Json, name: string, ptr: seq<string>) {
    val.Object? && StringMember(val.members, "op") == Ok(name) && PointerMember(val.members, "path") == Ok(ptr)
  }

  ghost predicate HasValue(val: Json, v: Json) {
    val.Object? && Member(val.members, "value") == Ok(v)
  }

  ghost predicate HasFrom(val: Json, from: seq<string>) {
    val.Object? && PointerMember(val.members, "from") == Ok(from)
  }

  /// Reading elsewhere

  function Place(elems: seq<Json>, token: string): Result<int> {
    if token == "-" then Ok(|elems|) else ArrayIndex(token)
  }

  /**
    The pointer `x` leads to a part of `j` that a change at `ptr` does not concern; a change that inserts or removes an
    element concerns the later elements of the array as well.
  */
  predicate Misses(j: Json, ptr: seq<string>, x: seq<string>, shifting: bool)
    decreases |ptr|
  {
    && ptr != [] && x != []
    && match j
       case Object(m) =>
         ptr[0] != x[0] || (|ptr| > 1 && x[0] in m && Misses(m[x[0]], ptr[1..], x[1..], shifting))
       case Array(elems) =>
         var i, k := Place(elems, ptr[0]), CheckedIndex(elems, x[0]);
         && i.Ok? && k.Ok?
         && (if i.value == k.value then |ptr| > 1 && Misses(elems[k.value], ptr[1..], x[1..], shifting)
             else |ptr| > 1 || !shifting || k.value < i.value)
       case _ => false
  }

  lemma IndexStays(elems: seq<Json>, other: seq<Json>, token: string)
    requires CheckedIndex(elems, token).Ok? && CheckedIndex(elems, token).value < |other|
    ensures CheckedIndex(other, token) == CheckedIndex(elems, token)
  {
  }

  lemma CheckedPlace(elems: seq<Json>, token: string)
    requires CheckedIndex(elems, token).Ok?
    ensures Place(elems, token) == Ok(CheckedIndex(elems, token).value)
  {
  }

  lemma MissesBelow(ptr: seq<string>, last: string)
    requires ptr != []
    ensures (ptr + [last])[0] == ptr[0] && (ptr + [last])[1..] == ptr[1..] + [last]
  {
  }

  /** A value assigned through a pointer concerns nobody else. */
  lemma {:induction false} PutElsewhere(j: Json, ptr: seq<string>, v: Json, x: seq<string>)
    requires At(j, ptr).Ok? && Misses(j, ptr, x, false)
    ensures At(Put(j, ptr, v).value, x) == At(j, x)
    decreases |ptr|
  {
    match j
    case Object(m) =>
      if ptr[0] == x[0] {
        PutElsewhere(m[x[0]], ptr[1..], v, x[1..]);
      }
    case Array(elems) =>
      var i, k := CheckedIndex(elems, ptr[0]).value, CheckedIndex(elems, x[0]).value;
      CheckedPlace(elems, ptr[0]);
      IndexStays(elems, Put(j, ptr, v).value.elems, x[0]);
      if i == k {
        PutElsewhere(elems[k], ptr[1..], v, x[1..]);
      }
  }

  lemma InsertHere(parent: Json, last: string, v: Json, x: seq<string>)
    requires Insert(parent, last, v).Ok? && Misses(parent, [last], x, true)
    ensures At(Insert(parent, last, v).value, x) == At(parent, x)
  {
    match parent
    case Object(m) =>
    case Array(elems) => IndexStays(elems, Insert(parent, last, v).value.elems, x[0]);
  }

  lemma {:induction false} InsertElsewhere(j: Json, ptr: seq<string>, last: string, v: Json, x: seq<string>)
    requires InsertAt(j, ptr, last, v).Ok? && Misses(j, ptr + [last], x, true)
    ensures At(InsertAt(j, ptr, last, v).value, x) == At(j, x)
    decreases |ptr|
  {
    if ptr == [] {
      assert ptr + [last] == [last];
      InsertHere(j, last, v, x);
    } else {
      MissesBelow(ptr, last);
      match j
      case Object(m) =>
        if ptr[0] == x[0] {
          InsertElsewhere(m[x[0]], ptr[1..], last, v, x[1..]);
        }
      case Array(elems) =>
        var i, k := UncheckedIndex(elems, ptr[0]).value, CheckedIndex(elems, x[0]).value;
        IndexStays(elems, InsertAt(j, ptr, last, v).value.elems, x[0]);
        if i == k {
          InsertElsewhere(elems[k], ptr[1..], last, v, x[1..]);
        }
    }
  }

  lemma EraseHere(parent: Json, last: string, x: seq<string>)
    requires Erase(parent, last).Ok? && Misses(parent, [last], x, true)
    ensures At(Erase(parent, last).value, x) == At(parent, x)
  {
    match parent
    case Object(m) =>
    case Array(elems) => IndexStays(elems, Erase(parent, last).value.elems, x[0]);
  }

  lemma {:induction false} EraseElsewhere(j: Json, p: seq<string>, last: string, x: seq<string>)
    requires At(j, p).Ok? && Erase(At(j, p).value, last).Ok? && Misses(j, p + [last], x, true)
    ensures At(Put(j, p, Erase(At(j, p).value, last).value).value, x) == At(j, x)
    decreases |p|
  {
    var rest := Erase(At(j, p).value, last).value;
    if p == [] {
      assert p + [last] == [last];
      EraseHere(j, last, x);
    } else {
      MissesBelow(p, last);
      match j
      case Object(m) =>
        if p[0] == x[0] {
          EraseElsewhere(m[x[0]], p[1..], last, x[1..]);
        }
      case Array(elems) =>
        var i, k := CheckedIndex(elems, p[0]).value, CheckedIndex(elems, x[0]).value;
        CheckedPlace(elems, p[0]);
        IndexStays(elems, Put(j, p, rest).value.elems, x[0]);
        if i == k {
          EraseElsewhere(elems[k], p[1..], last, x[1..]);
        }
    }
  }

  /// Reading what was added

  predicate Plain(token: string) {
    token != "-" && !LeadingZero(token)
  }

  predicate AllPlain(ptr: seq<string>) {
    forall i :: 0 <= i < |ptr| ==> Plain(ptr[i])
  }

  /** Found; or not to be read where a token "-" or one with a leading zero stands for a place in an array. */
  ghost predicate FoundAt(j: Json, ptr: seq<string>, v: Json) {
    && (At(j, ptr) == Ok(v) || At(j, ptr) == Err(OutOfRange(402)) || At(j, ptr) == Err(ParseError(106)))
    && (AllPlain(ptr) ==> At(j, ptr) == Ok(v))
  }

  lemma FoundHere(parent: Json, last: string, v: Json)
    requires Insert(parent, last, v).Ok?
    ensures FoundAt(Insert(parent, last, v).value, [last], v)
  {
  }

  lemma FoundInMember(m: map<string, Json>, token: string, child: Json, rest: seq<string>, v: Json)
    requires FoundAt(child, rest, v)
    ensures FoundAt(Object(m[token := child]), [token] + rest, v)
  {
    assert ([token] + rest)[1..] == rest;
    if AllPlain([token] + rest) {
      TailPlain(token, rest);
    }
  }

  lemma FoundInElement(elems: seq<Json>, token: string, i: nat, child: Json, rest: seq<string>, v: Json)
    requires FoundAt(child, rest, v) && i < |elems|
    requires !LeadingZero(token) && (token == "-" || ArrayIndex(token) == Ok(i))
    ensures FoundAt(Array(elems[i := child]), [token] + rest, v)
  {
    assert ([token] + rest)[1..] == rest;
    if AllPlain([token] + rest) {
      TailPlain(token, rest);
    }
  }

  lemma TailPlain(token: string, rest: seq<string>)
    requires AllPlain([token] + rest)
    ensures Plain(token) && AllPlain(rest)
  {
    assert ([token] + rest)[0] == token;
    forall i | 0 <= i < |rest| ensures Plain(rest[i]) {
      assert ([token] + rest)[i + 1] == rest[i];
    }
  }

  lemma PlaceOfUnchecked(elems: seq<Json>, token: string)
    requires UncheckedIndex(elems, token).Ok?
    ensures !LeadingZero(token) && (token == "-" || ArrayIndex(token) == Ok(UncheckedIndex(elems, token).value))
  {
  }

  lemma {:induction false} InsertThenFound(j: Json, ptr: seq<string>, last: string, v: Json)
    requires InsertAt(j, ptr, last, v).Ok?
    ensures FoundAt(InsertAt(j, ptr, last, v).value, ptr + [last], v)
    decreases |ptr|
  {
    if ptr == [] {
      assert ptr + [last] == [last];
      FoundHere(j, last, v);
    } else {
      var token, rest := ptr[0], ptr[1..];
      assert ptr + [last] == [token] + (rest + [last]);
      match Container(j, token)
      case Object(m) =>
        var child := if token in m then m[token] else Null;
        InsertThenFound(child, rest, last, v);
        FoundInMember(m, token, InsertAt(child, rest, last, v).value, rest + [last], v);
      case Array(elems) =>
        var i := UncheckedIndex(elems, token).value;
        PlaceOfUnchecked(elems, token);
        var grown := Grown(elems, i);
        InsertThenFound(grown[i], rest, last, v);
        FoundInElement(grown, token, i, InsertAt(grown[i], rest, last, v).value, rest + [last], v);
    }
  }

  /// Adding and removing undo each other

  /** The place is free: nothing is overwritten there, and it can be named again. */
  predicate IsFree(parent: Json, last: string) {
    match parent
    case Object(m) => last !in m
    case Array(elems) => last != "-"
    case _ => false
  }

  lemma EraseUndoesInsert(parent: Json, last: string, v: Json)
    requires Insert(parent, last, v).Ok?
    ensures Erase(Insert(parent, last, v).value, last) == Ok(parent) <==> IsFree(parent, last)
  {
    match parent
    case Null =>
    case Object(m) =>
      if last !in m {
        assert m[last := v] - {last} == m;
      } else {
        assert last !in m[last := v] - {last};
      }
    case Array(elems) =>
      if last != "-" {
        var i := ArrayIndex(last).value;
        var grown := elems[..i] + [v] + elems[i..];
        assert grown[..i] + grown[i + 1..] == elems;
      }
  }

  lemma InsertUndoesErase(parent: Json, last: string)
    requires At(parent, [last]).Ok?
    ensures Erase(parent, last).Ok? && IsFree(Erase(parent, last).value, last)
    ensures Insert(Erase(parent, last).value, last, At(parent, [last]).value) == Ok(parent)
  {
    match parent
    case Object(m) => assert (m - {last})[last := m[last]] == m;
    case Array(elems) =>
      var i := CheckedIndex(elems, last).value;
      var less := elems[..i] + elems[i + 1..];
      assert less[..i] + [elems[i]] + less[i..] == elems;
  }

  lemma Split(p: seq<string>, last: string)
    ensures (p + [last])[..|p|] == p && (p + [last])[|p + [last]| - 1] == last
  {
  }

  /** A remove takes back an add into an existing parent exactly when the add has found a free place. */
  lemma RemoveUndoesAdd(doc: Json, p: seq<string>, last: string, v: Json)
    requires At(doc, p).Ok? && AddAt(doc, p + [last], v).Ok?
    ensures RemoveAt(AddAt(doc, p + [last], v).value, p + [last]) == Ok(doc) <==> IsFree(At(doc, p).value, last)
  {
    var parent := At(doc, p).value;
    AddBelow(doc, p, last, v);
    var grown := Insert(parent, last, v).value;
    EraseUndoesInsert(parent, last, v);
    Split(p, last);
    var back := Erase(grown, last);
    PutThenAt(doc, p, grown, parent);
    PutSame(doc, p);
    if back.Ok? {
      PutThenAt(doc, p, grown, back.value);
      PutThenAt(doc, p, back.value, parent);
    }
  }

  /** What can be read can be removed, and an add takes that back. */
  lemma AddUndoesRemove(doc: Json, p: seq<string>, last: string)
    requires At(doc, p + [last]).Ok?
    ensures RemoveAt(doc, p + [last]).Ok?
    ensures AddAt(RemoveAt(doc, p + [last]).value, p + [last], At(doc, p + [last]).value) == Ok(doc)
  {
    AtConcat(doc, p, [last]);
    Split(p, last);
    var parent := At(doc, p).value;
    InsertUndoesErase(parent, last);
    var less := Erase(parent, last).value;
    PutThenAt(doc, p, less, parent);
    PutSame(doc, p);
    AddBelow(Put(doc, p, less).value, p, last, At(parent, [last]).value);
  }

  /// The operations

  lemma RemoveElsewhere(doc: Json, ptr: seq<string>, x: seq<string>)
    requires RemoveAt(doc, ptr).Ok? && Misses(doc, ptr, x, true)
    ensures At(RemoveAt(doc, ptr).value, x) == At(doc, x)
  {
    var front, last := ptr[..|ptr| - 1], ptr[|ptr| - 1];
    assert front + [last] == ptr;
    EraseElsewhere(doc, front, last, x);
  }

  lemma AddElsewhere(doc: Json, ptr: seq<string>, v: Json, x: seq<string>)
    requires AddAt(doc, ptr, v).Ok? && Misses(doc, ptr, x, true)
    ensures At(AddAt(doc, ptr, v).value, x) == At(doc, x)
  {
    var front, last := ptr[..|ptr| - 1], ptr[|ptr| - 1];
    assert front + [last] == ptr;
    InsertElsewhere(doc, front, last, v, x);
  }

  lemma AddThenFound(doc: Json, ptr: seq<string>, v: Json)
    requires AddAt(doc, ptr, v).Ok?
    ensures FoundAt(AddAt(doc, ptr, v).value, ptr, v)
  {
    if ptr != [] {
      var front, last := ptr[..|ptr| - 1], ptr[|ptr| - 1];
      assert front + [last] == ptr;
      InsertThenFound(doc, front, last, v);
    }
  }

  /** An add leaves the value at its target, and everything it does not concern as it was. */
  lemma AddMeans(doc: Json, val: Json, ptr: seq<string>, v: Json)
    requires IsOp(val, "add", ptr) && HasValue(val, v) && ApplyOp(doc, val).Ok?
    ensures var r := ApplyOp(doc, val).value;
      FoundAt(r, ptr, v) && forall x :: Misses(doc, ptr, x, true) ==> At(r, x) == At(doc, x)
  {
    AddThenFound(doc, ptr, v);
    forall x | Misses(doc, ptr, x, true) ensures At(ApplyOp(doc, val).value, x) == At(doc, x) {
      AddElsewhere(doc, ptr, v, x);
    }
  }

  ghost predicate HasMoreAt(after: seq<Json>, elems: seq<Json>, i: nat, v: Json) {
    && |after| == |elems| + 1 && i <= |elems| && after[i] == v
    && (forall k :: 0 <= k < i ==> after[k] == elems[k])
    && (forall k :: i <= k < |elems| ==> after[k + 1] == elems[k])
  }

  /** In an array an add has the elements in front stay, the value at the index, and the others move up by one. */
  lemma AddShifts(doc: Json, val: Json, p: seq<string>, last: string, v: Json, elems: seq<Json>, i: nat)
    requires IsOp(val, "add", p + [last]) && HasValue(val, v) && At(doc, p) == Ok(Array(elems))
    requires Place(elems, last) == Ok(i) && i <= |elems|
    ensures ApplyOp(doc, val).Ok? && At(ApplyOp(doc, val).value, p).Ok?
    ensures
      var after := At(ApplyOp(doc, val).value, p).value;
      after.Array? && HasMoreAt(after.elems, elems, i, v)
  {
    AddBelow(doc, p, last, v);
    InsertShifts(elems, last, v, i);
    PutThenAt(doc, p, Insert(Array(elems), last, v).value, Null);
  }

  lemma InsertShifts(elems: seq<Json>, last: string, v: Json, i: nat)
    requires Place(elems, last) == Ok(i) && i <= |elems|
    ensures
      var after := Insert(Array(elems), last, v);
      after.Ok? && after.value.Array? && HasMoreAt(after.value.elems, elems, i, v)
  {
  }

  /** A remove has the elements in front stay and the others move down by one. */
  lemma RemoveShifts(doc: Json, val: Json, p: seq<string>, last: string, elems: seq<Json>, i: nat)
    requires IsOp(val, "remove", p + [last]) && At(doc, p) == Ok(Array(elems))
    requires ArrayIndex(last) == Ok(i) && i < |elems|
    ensures ApplyOp(doc, val).Ok? && At(ApplyOp(doc, val).value, p).Ok?
    ensures
      var after := At(ApplyOp(doc, val).value, p).value;
      after.Array? && HasMoreAt(elems, after.elems, i, elems[i])
  {
    Split(p, last);
    PutThenAt(doc, p, Erase(Array(elems), last).value, Null);
  }

  /** A remove takes what can be read, so that adding it again gives the document back; the rest is as it was. */
  lemma RemoveMeans(doc: Json, val: Json, p: seq<string>, last: string)
    requires IsOp(val, "remove", p + [last]) && At(doc, p + [last]).Ok?
    ensures ApplyOp(doc, val).Ok?
    ensures var r := ApplyOp(doc, val).value;
      && AddAt(r, p + [last], At(doc, p + [last]).value) == Ok(doc)
      && forall x :: Misses(doc, p + [last], x, true) ==> At(r, x) == At(doc, x)
  {
    AddUndoesRemove(doc, p, last);
    forall x | Misses(doc, p + [last], x, true) ensures At(ApplyOp(doc, val).value, x) == At(doc, x) {
      RemoveElsewhere(doc, p + [last], x);
    }
  }

  /** A remove undoes an add: exactly when the add has overwritten nothing and its place can be named again. */
  lemma RemoveOpUndoesAdd(doc: Json, add: Json, remove: Json, p: seq<string>, last: string, v: Json)
    requires IsOp(add, "add", p + [last]) && HasValue(add, v) && IsOp(remove, "remove", p + [last])
    requires At(doc, p).Ok? && ApplyOp(doc, add).Ok?
    ensures ApplyAll(doc, [add, remove]) == Ok(doc) <==> IsFree(At(doc, p).value, last)
  {
    RemoveUndoesAdd(doc, p, last, v);
    TwoOps(doc, add, remove);
  }

  lemma TwoOps(doc: Json, first: Json, second: Json)
    ensures
      var half := ApplyOp(doc, first);
      ApplyAll(doc, [first, second]) == if half.Ok? then ApplyOp(half.value, second) else half
  {
    ApplyAllConcat(doc, [first], [second]);
    assert [first] + [second] == [first, second];
    assert ApplyAll(doc, [first]) == ApplyOp(doc, first);
    if ApplyOp(doc, first).Ok? {
      assert ApplyAll(ApplyOp(doc, first).value, [second]) == ApplyOp(ApplyOp(doc, first).value, second);
    }
  }

  /** A replace needs something to replace, and changes that alone. */
  lemma ReplaceMeans(doc: Json, val: Json, ptr: seq<string>, v: Json)
    requires IsOp(val, "replace", ptr) && HasValue(val, v)
    ensures ApplyOp(doc, val).Ok? <==> At(doc, ptr).Ok?
    ensures ApplyOp(doc, val).Ok? ==>
      var r := ApplyOp(doc, val).value;
      && At(r, ptr) == Ok(v) && Put(r, ptr, At(doc, ptr).value) == Ok(doc)
      && forall x :: Misses(doc, ptr, x, false) ==> At(r, x) == At(doc, x)
  {
    if At(doc, ptr).Ok? {
      PutThenAt(doc, ptr, v, At(doc, ptr).value);
      PutSame(doc, ptr);
      forall x | Misses(doc, ptr, x, false) ensures At(ApplyOp(doc, val).value, x) == At(doc, x) {
        PutElsewhere(doc, ptr, v, x);
      }
    }
  }

  /**
    After a copy the value is at the target, and still at its source unless the add concerns the source; everything
    that the add does not concern is as it was.
  */
  lemma CopyMeans(doc: Json, val: Json, from: seq<string>, ptr: seq<string>)
    requires IsOp(val, "copy", ptr) && HasFrom(val, from) && ApplyOp(doc, val).Ok?
    ensures At(doc, from).Ok?
    ensures var r, v := ApplyOp(doc, val).value, At(doc, from).value;
      && FoundAt(r, ptr, v)
      && (Misses(doc, ptr, from, true) ==> At(r, from) == Ok(v))
      && forall x :: Misses(doc, ptr, x, true) ==> At(r, x) == At(doc, x)
  {
    var v := At(doc, from).value;
    AddThenFound(doc, ptr, v);
    forall x | Misses(doc, ptr, x, true) ensures At(ApplyOp(doc, val).value, x) == At(doc, x) {
      AddElsewhere(doc, ptr, v, x);
    }
  }

  /** Where an object lost a member there is nothing to read any more. */
  lemma RemovedIsGone(doc: Json, p: seq<string>, last: string, m: map<string, Json>)
    requires At(doc, p) == Ok(Object(m)) && last in m
    ensures RemoveAt(doc, p + [last]).Ok?
    ensures At(RemoveAt(doc, p + [last]).value, p + [last]) == Err(OutOfRange(403))
  {
    Split(p, last);
    PutThenAt(doc, p, Object(m - {last}), Null);
    AtConcat(Put(doc, p, Object(m - {last})).value, p, [last]);
  }

  /**
    A move is done in a document from which the value has been removed: there, the value is then at the target, and
    everything that neither removing nor adding concerns is as it was.
  */
  lemma MoveMeans(doc: Json, val: Json, from: seq<string>, ptr: seq<string>)
    requires IsOp(val, "move", ptr) && HasFrom(val, from) && ApplyOp(doc, val).Ok?
    ensures At(doc, from).Ok? && RemoveAt(doc, from).Ok?
    ensures var r, without := ApplyOp(doc, val).value, RemoveAt(doc, from).value;
      && FoundAt(r, ptr, At(doc, from).value)
      && forall x :: Misses(doc, from, x, true) && Misses(without, ptr, x, true) ==> At(r, x) == At(doc, x)
  {
    var without, v := RemoveAt(doc, from).value, At(doc, from).value;
    AddThenFound(without, ptr, v);
    forall x | Misses(doc, from, x, true) && Misses(without, ptr, x, true)
      ensures At(ApplyOp(doc, val).value, x) == At(doc, x)
    {
      RemoveElsewhere(doc, from, x);
      AddElsewhere(without, ptr, v, x);
    }
  }

  /** A member that has been moved is gone from where it was, unless the add concerns that place. */
  lemma MovedIsGone(doc: Json, val: Json, p: seq<string>, last: string, ptr: seq<string>)
    requires IsOp(val, "move", ptr) && HasFrom(val, p + [last]) && ApplyOp(doc, val).Ok?
    requires At(doc, p).Ok? && At(doc, p).value.Object?
    requires Misses(RemoveAt(doc, p + [last]).value, ptr, p + [last], true)
    ensures At(ApplyOp(doc, val).value, p + [last]) == Err(OutOfRange(403))
  {
    var m := At(doc, p).value.members;
    AtConcat(doc, p, [last]);
    RemovedIsGone(doc, p, last, m);
    AddElsewhere(RemoveAt(doc, p + [last]).value, ptr, At(doc, p + [last]).value, p + [last]);
  }

  /** A place that is free, and that lookups accept as well as adds. */
  predicate CanReturn(parent: Json, last: string) {
    IsFree(parent, last) && (parent.Array? ==> !LeadingZero(last))
  }

  /** Nothing gets lost: what was moved to a free place can be moved back, and the document is the old one again. */
  lemma MoveBack(doc: Json, there: Json, back: Json, p: seq<string>, last: string, q: seq<string>, to: string)
    requires IsOp(there, "move", q + [to]) && HasFrom(there, p + [last])
    requires IsOp(back, "move", p + [last]) && HasFrom(back, q + [to])
    requires ApplyOp(doc, there).Ok?
    requires var without := RemoveAt(doc, p + [last]).value;
      At(without, q).Ok? && CanReturn(At(without, q).value, to)
    ensures ApplyAll(doc, [there, back]) == Ok(doc)
  {
    var from, ptr := p + [last], q + [to];
    var v, without := At(doc, from).value, RemoveAt(doc, from).value;
    AddUndoesRemove(doc, p, last);
    RemoveUndoesAdd(without, q, to, v);
    AddedIsRead(without, q, to, v);
    TwoOps(doc, there, back);
  }

  lemma AddedIsRead(doc: Json, p: seq<string>, last: string, v: Json)
    requires At(doc, p).Ok? && CanReturn(At(doc, p).value, last) && AddAt(doc, p + [last], v).Ok?
    ensures At(AddAt(doc, p + [last], v).value, p + [last]) == Ok(v)
  {
    var parent := At(doc, p).value;
    AddBelow(doc, p, last, v);
    var grown := Insert(parent, last, v).value;
    PutThenAt(doc, p, grown, Null);
    AtConcat(Put(doc, p, grown).value, p, [last]);
  }

  lemma {:induction false} InsertThrough(j: Json, p: seq<string>, key: string, last: string, v: Json)
    requires At(j, p).Ok?
    ensures
      var inserted := InsertAt(At(j, p).value, [key], last, v);
      InsertAt(j, p + [key], last, v) == if inserted.Ok? then Put(j, p, inserted.value) else inserted
    decreases |p|
  {
    if p == [] {
      assert p + [key] == [key];
    } else {
      MissesBelow(p, key);
      match j
      case Object(m) => InsertThrough(m[p[0]], p[1..], key, last, v);
      case Array(elems) => InsertThrough(elems[CheckedIndex(elems, p[0]).value], p[1..], key, last, v);
    }
  }

  /**
    An add below a member that does not exist makes that member, an object, where the RFC asks for an error; only what
    is missing at the top is refused.
  */
  lemma MissingParentIsMade(doc: Json, val: Json, p: seq<string>, key: string, last: string, v: Json,
                            m: map<string, Json>)
    requires IsOp(val, "add", p + [key] + [last]) && HasValue(val, v)
    requires At(doc, p) == Ok(Object(m)) && key !in m
    ensures
      ApplyOp(doc, val) ==
      if p == [] then Err(OutOfRange(403)) else Put(doc, p, Object(m[key := Object(map[last := v])]))
  {
    var ptr := p + [key] + [last];
    Split(p + [key], last);
    assert ApplyOp(doc, val) == AddAt(doc, ptr, v);
    if p == [] {
      assert ptr[..1] == [key];
    } else {
      assert ptr[..1] == p[..1] && p == p[..1] + p[1..];
      AtConcat(doc, p[..1], p[1..]);
      InsertThrough(doc, p, key, last, v);
      InsertMissing(m, key, last, v);
    }
  }

  lemma InsertInMember(m: map<string, Json>, key: string, last: string, v: Json, child: Json)
    requires InsertAt(if key in m then m[key] else Null, [], last, v) == Ok(child)
    ensures InsertAt(Object(m), [key], last, v) == Ok(Object(m[key := child]))
  {
    var ptr := [key];
    assert ptr[1..] == [];
    assert Container(Object(m), key) == Object(m);
  }

  lemma InsertMissing(m: map<string, Json>, key: string, last: string, v: Json)
    requires key !in m
    ensures InsertAt(Object(m), [key], last, v) == Ok(Object(m[key := Object(map[last := v])]))
  {
    InsertInMember(m, key, last, v, Object(map[last := v]));
  }

  /** A test gives back the document exactly when what is found equals what is wanted. */
  lemma TestMeans(doc: Json, val: Json, ptr: seq<string>, wanted: Json)
    requires IsOp(val, "test", ptr) && HasValue(val, wanted)
    ensures ApplyOp(doc, val).Ok? <==> At(doc, ptr).Ok? && Eq(At(doc, ptr).value, wanted)
    ensures ApplyOp(doc, val).Ok? ==> ApplyOp(doc, val) == Ok(doc)
    ensures ApplyOp(doc, val) == Err(OtherError(501)) <==>
              if At(doc, ptr).Ok? then !Eq(At(doc, ptr).value, wanted) else At(doc, ptr).error.OutOfRange?
  {
    if At(doc, ptr).Err? {
      LookupErrors(doc, ptr);
    }
  }

  lemma {:induction false} LookupErrors(j: Json, ptr: seq<string>)
    requires At(j, ptr).Err?
    ensures !At(j, ptr).error.OtherError?
    decreases |ptr|
  {
    match j
    case Object(m) =>
      if ptr[0] in m {
        LookupErrors(m[ptr[0]], ptr[1..]);
      }
    case Array(elems) =>
      if CheckedIndex(elems, ptr[0]).Ok? {
        LookupErrors(elems[CheckedIndex(elems, ptr[0]).value], ptr[1..]);
      }
    case _ =>
  }
}
