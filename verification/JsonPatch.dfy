/** JSON Patch, RFC 6902: applying a patch document to a value. */
module JsonPatch {
  import opened JsonResult
  import opened JsonValue
  import JsonPointer
  import Decimal

  /// Looking up and assigning through a pointer

  function ArrayIndex(token: string): Result<int> {
    match Decimal.Stoi(token)
    case Number(i, used) => if used != |token| then Err(OutOfRange(404)) else Ok(i)
    case InvalidArgument => Err(StdInvalidArgument)
    case OutOfRange => Err(StdOutOfRange)
  }

  predicate LeadingZero(token: string) {
    |token| > 1 && token[0] == '0'
  }

  function NumberOr109(r: Result<int>): Result<int> {
    if r == Err(StdInvalidArgument) then Err(ParseError(109)) else r
  }

  function CheckedIndex(elems: seq<Json>, token: string): (r: Result<nat>)
    ensures r.Ok? ==> r.value < |elems|
  {
    if token == "-" then Err(OutOfRange(402))
    else if LeadingZero(token) then Err(ParseError(106))
    else
      var i :- NumberOr109(ArrayIndex(token));
      if 0 <= i < |elems| then Ok(i) else Err(OutOfRange(401))
  }

  /** at(pointer): every step must exist. */
  function At(j: Json, ptr: seq<string>): Result<Json>
    decreases |ptr|
  {
    if ptr == [] then Ok(j)
    else
      match j
      case Object(m) => if ptr[0] in m then At(m[ptr[0]], ptr[1..]) else Err(OutOfRange(403))
      case Array(elems) =>
        var i :- CheckedIndex(elems, ptr[0]);
        At(elems[i], ptr[1..])
      case _ => Err(OutOfRange(404))
  }

  /** at(pointer) = v. */
  function Put(j: Json, ptr: seq<string>, v: Json): (r: Result<Json>)
    ensures if At(j, ptr).Ok? then r.Ok? else r == At(j, ptr)
    decreases |ptr|
  {
    if ptr == [] then Ok(v)
    else
      match j
      case Object(m) =>
        if ptr[0] in m then
          var child :- Put(m[ptr[0]], ptr[1..], v);
          Ok(Object(m[ptr[0] := child]))
        else Err(OutOfRange(403))
      case Array(elems) =>
        var i :- CheckedIndex(elems, ptr[0]);
        var child :- Put(elems[i], ptr[1..], v);
        Ok(Array(elems[i := child]))
      case _ => Err(OutOfRange(404))
  }

  /// The operations

  function UncheckedIndex(elems: seq<Json>, token: string): (r: Result<nat>) {
    if LeadingZero(token) then Err(ParseError(106))
    else if token == "-" then Ok(|elems|)
    else
      var i :- NumberOr109(ArrayIndex(token));
      if i < 0 then Err(StdLengthError) else Ok(i)
  }

  predicate AllDigits(token: string) {
    forall i :: 0 <= i < |token| ==> Decimal.IsDigit(token[i])
  }

  function Insert(parent: Json, last: string, v: Json): Result<Json> {
    match parent
    case Null => Ok(Object(map[last := v]))
    case Object(m) => Ok(Object(m[last := v]))
    case Array(elems) =>
      if last == "-" then Ok(Array(elems + [v]))
      else
        var i :- ArrayIndex(last);
        if 0 <= i <= |elems| then Ok(Array(elems[..i] + [v] + elems[i..])) else Err(OutOfRange(401))
    case _ => Err(Undefined)
  }

  /** What is missing on the way is created: a null turns into an array or an object. */
  function Container(j: Json, token: string): Json {
    if !j.Null? then j else if AllDigits(token) || token == "-" then Array([]) else Object(map[])
  }

  /** The elements, with nulls behind them up to index `i`. */
  function Grown(elems: seq<Json>, i: nat): (r: seq<Json>)
    ensures |r| > i && elems <= r
  {
    if i < |elems| then elems else elems + seq(i + 1 - |elems|, _ => Null)
  }

  /** Inserts below `ptr`. */
  function InsertAt(j: Json, ptr: seq<string>, last: string, v: Json): Result<Json>
    decreases |ptr|
  {
    if ptr == [] then Insert(j, last, v)
    else
      var token := ptr[0];
      match Container(j, token)
      case Object(m) =>
        var child :- InsertAt(if token in m then m[token] else Null, ptr[1..], last, v);
        Ok(Object(m[token := child]))
      case Array(elems) =>
        var i :- UncheckedIndex(elems, token);
        var grown := Grown(elems, i);
        var child :- InsertAt(grown[i], ptr[1..], last, v);
        Ok(Array(grown[i := child]))
      case _ => Err(OutOfRange(404))
  }

  function AddAt(doc: Json, ptr: seq<string>, v: Json): Result<Json> {
    if ptr == [] then Ok(v)
    else
      var top :- if |ptr| > 1 then At(doc, ptr[..1]) else Ok(doc);
      InsertAt(doc, ptr[..|ptr| - 1], ptr[|ptr| - 1], v)
  }

  /** A parent that is neither object nor array is left alone. */
  function Erase(parent: Json, last: string): Result<Json> {
    match parent
    case Object(m) => if last in m then Ok(Object(m - {last})) else Err(OutOfRange(403))
    case Array(elems) =>
      var i :- ArrayIndex(last);
      if 0 <= i < |elems| then Ok(Array(elems[..i] + elems[i + 1..])) else Err(OutOfRange(401))
    case _ => Ok(parent)
  }

  function RemoveAt(doc: Json, ptr: seq<string>): Result<Json> {
    if ptr == [] then Err(OutOfRange(405))
    else
      var front := ptr[..|ptr| - 1];
      var parent :- At(doc, front);
      var rest :- Erase(parent, ptr[|ptr| - 1]);
      Put(doc, front, rest)
  }

  /// Patch documents

  function Member(op: map<string, Json>, name: string): Result<Json> {
    if name in op then Ok(op[name]) else Err(ParseError(105))
  }

  function StringMember(op: map<string, Json>, name: string): Result<string> {
    var v :- Member(op, name);
    if v.String? then Ok(v.s) else Err(ParseError(105))
  }

  function PointerMember(op: map<string, Json>, name: string): Result<seq<string>> {
    var s :- StringMember(op, name);
    JsonPointer.Parse(s)
  }

  /** A test fails on any out_of_range while looking up; other exceptions pass through. */
  function TestAt(doc: Json, ptr: seq<string>, op: map<string, Json>): Result<Json> {
    match At(doc, ptr)
    case Err(OutOfRange(_)) => Err(OtherError(501))
    case Err(e) => Err(e)
    case Ok(found) =>
      var wanted :- Member(op, "value");
      if Eq(found, wanted) then Ok(doc) else Err(OtherError(501))
  }

  function ApplyOp(doc: Json, val: Json): Result<Json> {
    if !val.Object? then Err(ParseError(104))
    else
      var op := val.members;
      var name :- StringMember(op, "op");
      var ptr :- PointerMember(op, "path");
      if name == "add" then
        var v :- Member(op, "value");
        AddAt(doc, ptr, v)
      else if name == "remove" then RemoveAt(doc, ptr)
      else if name == "replace" then
        var v :- Member(op, "value");
        Put(doc, ptr, v)
      else if name == "move" then
        var from :- PointerMember(op, "from");
        var v :- At(doc, from);
        var without :- RemoveAt(doc, from);
        AddAt(without, ptr, v)
      else if name == "copy" then
        var from :- PointerMember(op, "from");
        var v :- At(doc, from);
        AddAt(doc, ptr, v)
      else if name == "test" then TestAt(doc, ptr, op)
      else Err(ParseError(105))
  }

  function ApplyAll(doc: Json, ops: seq<Json>): Result<Json>
    decreases |ops|
  {
    if ops == [] then Ok(doc)
    else
      var next :- ApplyOp(doc, ops[0]);
      ApplyAll(next, ops[1..])
  }

  /** The value of `doc.patch(document)`. */
  function Patched(doc: Json, document: Json): Result<Json> {
    if !document.Array? then Err(ParseError(104)) else ApplyAll(doc, document.elems)
  }

  /** patch(): a working copy updated operation by operation. */
  method Patch(doc: Json, document: Json) returns (r: Result<Json>)
    ensures r == Patched(doc, document)
  {
    if !document.Array? {
      return Err(ParseError(104));
    }
    var result := doc;
    for i := 0 to |document.elems|
      invariant Patched(doc, document) == ApplyAll(result, document.elems[i..])
    {
      var step := ApplyOp(result, document.elems[i]);
      if step.Err? {
        return step;
      }
      result := step.value;
    }
    return Ok(result);
  }

  /// Locality: what an operation at a pointer does to the rest

  lemma {:induction false} AtConcat(j: Json, p: seq<string>, q: seq<string>)
    ensures At(j, p + q) == if At(j, p).Ok? then At(At(j, p).value, q) else At(j, p)
    decreases |p|
  {
    if p == [] {
      assert p + q == q;
    } else {
      assert (p + q)[0] == p[0] && (p + q)[1..] == p[1..] + q;
      match j
      case Object(m) =>
        if p[0] in m {
          AtConcat(m[p[0]], p[1..], q);
        }
      case Array(elems) =>
        var i := CheckedIndex(elems, p[0]);
        if i.Ok? {
          AtConcat(elems[i.value], p[1..], q);
        }
      case _ =>
    }
  }

  /** What was put is found again, and a second put replaces the first. */
  lemma {:induction false} PutThenAt(j: Json, p: seq<string>, v: Json, w: Json)
    requires At(j, p).Ok?
    ensures At(Put(j, p, v).value, p) == Ok(v)
    ensures Put(Put(j, p, v).value, p, w) == Put(j, p, w)
    decreases |p|
  {
    if p != [] {
      match j
      case Object(m) =>
        PutThenAt(m[p[0]], p[1..], v, w);
        var c, d := Put(m[p[0]], p[1..], v).value, Put(m[p[0]], p[1..], w).value;
        assert m[p[0] := c][p[0] := d] == m[p[0] := d];
      case Array(elems) =>
        var i := CheckedIndex(elems, p[0]).value;
        PutThenAt(elems[i], p[1..], v, w);
        var c, d := Put(elems[i], p[1..], v).value, Put(elems[i], p[1..], w).value;
        assert elems[i := c][i := d] == elems[i := d];
    }
  }

  lemma {:induction false} PutSame(j: Json, p: seq<string>)
    requires At(j, p).Ok?
    ensures Put(j, p, At(j, p).value) == Ok(j)
    decreases |p|
  {
    if p != [] {
      match j
      case Object(m) =>
        PutSame(m[p[0]], p[1..]);
        assert m[p[0] := m[p[0]]] == m;
      case Array(elems) =>
        var i := CheckedIndex(elems, p[0]).value;
        PutSame(elems[i], p[1..]);
        assert elems[i := elems[i]] == elems;
    }
  }

  /** A put below `p` is a put at `p` of the changed part. */
  lemma {:induction false} PutConcat(j: Json, p: seq<string>, q: seq<string>, v: Json)
    requires At(j, p + q).Ok?
    ensures At(j, p).Ok? && At(At(j, p).value, q).Ok?
    ensures Put(j, p + q, v) == Put(j, p, Put(At(j, p).value, q, v).value)
    decreases |p|
  {
    AtConcat(j, p, q);
    if p == [] {
      assert p + q == q;
    } else {
      assert (p + q)[0] == p[0] && (p + q)[1..] == p[1..] + q;
      match j
      case Object(m) => PutConcat(m[p[0]], p[1..], q, v);
      case Array(elems) => PutConcat(elems[CheckedIndex(elems, p[0]).value], p[1..], q, v);
    }
  }

  /** Where the parent exists, inserting creates nothing on the way. */
  lemma {:induction false} InsertBelow(j: Json, p: seq<string>, last: string, v: Json)
    requires At(j, p).Ok?
    ensures
      var inserted := Insert(At(j, p).value, last, v);
      InsertAt(j, p, last, v) == if inserted.Ok? then Put(j, p, inserted.value) else inserted
    decreases |p|
  {
    if p != [] {
      match j
      case Object(m) => InsertBelow(m[p[0]], p[1..], last, v);
      case Array(elems) => InsertBelow(elems[CheckedIndex(elems, p[0]).value], p[1..], last, v);
    }
  }

  lemma AddBelow(doc: Json, p: seq<string>, token: string, v: Json)
    requires At(doc, p).Ok?
    ensures
      var inserted := Insert(At(doc, p).value, token, v);
      AddAt(doc, p + [token], v) == if inserted.Ok? then Put(doc, p, inserted.value) else inserted
  {
    assert (p + [token])[..|p|] == p;
    if p != [] {
      assert (p + [token])[..1] == p[..1] && p == p[..1] + p[1..];
      AtConcat(doc, p[..1], p[1..]);
    }
    InsertBelow(doc, p, token, v);
  }

  /**
    An add whose parent exists ends in the code's failing assertion exactly when that parent is neither null, object
    nor array: such a parent can exist, whatever the comment beside the assertion says.
  */
  lemma AddBelowPrimitive(doc: Json, p: seq<string>, token: string, v: Json)
    requires At(doc, p).Ok?
    ensures
      var parent := At(doc, p).value;
      AddAt(doc, p + [token], v) == Err(Undefined) <==> !parent.Null? && !parent.Object? && !parent.Array?
  {
    AddBelow(doc, p, token, v);
  }

  lemma {:induction false} ApplyAllConcat(doc: Json, a: seq<Json>, b: seq<Json>)
    ensures
      var half := ApplyAll(doc, a);
      ApplyAll(doc, a + b) == if half.Ok? then ApplyAll(half.value, b) else half
    decreases |a|
  {
    if a == [] {
      assert a + b == b;
    } else {
      assert (a + b)[0] == a[0] && (a + b)[1..] == a[1..] + b;
      var next := ApplyOp(doc, a[0]);
      if next.Ok? {
        ApplyAllConcat(next.value, a[1..], b);
      }
    }
  }
}
