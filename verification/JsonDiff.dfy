/** diff: a patch document that turns one value into another, and why patching with it does so. */
module JsonDiff {
  import opened JsonResult
  import opened JsonValue
  import opened JsonPatch
  import JsonPointer
  import Decimal

  /// The operations that diff emits

  function ReplaceOp(path: string, v: Json): Json {
    Object(map["op" := String("replace"), "path" := String(path), "value" := v])
  }

  function AddOp(path: string, v: Json): Json {
    Object(map["op" := String("add"), "path" := String(path), "value" := v])
  }

  function RemoveOp(path: string): Json {
    Object(map["op" := String("remove"), "path" := String(path)])
  }

  function IndexPath(path: string, i: nat): string {
    path + "/" + Decimal.ToString(i)
  }

  function KeyPath(path: string, key: string): string {
    path + "/" + JsonPointer.Escape(key)
  }

  /**
    Every array position where the two values differ has an index that std::stoi can read back: the pointers of a
    patch are limited to 2^31 elements.
  */
  predicate IndexesFit(s: Json, t: Json) {
    Eq(s, t) ||
    match (s, t)
    case (Array(x), Array(y)) =>
      && (forall i :: 0 <= i < |x| && i < |y| ==> ElementFits(i, x[i], y[i]) && IndexesFit(x[i], y[i]))
      && (|x| != |y| ==> |x| - 1 <= Decimal.INT_MAX && |y| - 1 <= Decimal.INT_MAX)
    case (Object(x), Object(y)) => forall k :: k in x && k in y ==> IndexesFit(x[k], y[k])
    case _ => true
  }

  predicate ElementFits(i: nat, s: Json, t: Json) {
    i <= Decimal.INT_MAX || Eq(s, t)
  }

  /// What one emitted operation does at its place

  lemma IndexToken(i: nat)
    ensures var token := Decimal.ToString(i);
      && token != "-" && !LeadingZero(token) && JsonPointer.Escape(token) == token
      && ArrayIndex(token) == if i <= Decimal.INT_MAX then Ok(i) else Err(StdOutOfRange)
  {
    var token := Decimal.ToString(i);
    Decimal.ReadPrinted(i, "");
    assert token + "" == token;
    DigitsEscape(token);
  }

  lemma {:induction false} DigitsEscape(s: string)
    requires forall i :: 0 <= i < |s| ==> Decimal.IsDigit(s[i])
    ensures JsonPointer.Escape(s) == s
  {
    if s != "" {
      JsonPointer.EscapeStep(s);
      DigitsEscape(s[1..]);
      assert s == [s[0]] + s[1..];
    }
  }

  lemma FormatIndex(p: seq<string>, i: nat)
    ensures IndexPath(JsonPointer.Format(p), i) == JsonPointer.Format(p + [Decimal.ToString(i)])
  {
    IndexToken(i);
    assert (p + [Decimal.ToString(i)])[..|p|] == p;
  }

  lemma FormatKey(p: seq<string>, key: string)
    ensures KeyPath(JsonPointer.Format(p), key) == JsonPointer.Format(p + [key])
  {
    assert (p + [key])[..|p|] == p;
  }

  /** The three operations, with their pointers parsed back. */
  lemma OpsApply(doc: Json, p: seq<string>, v: Json)
    ensures ApplyOp(doc, ReplaceOp(JsonPointer.Format(p), v)) == Put(doc, p, v)
    ensures ApplyOp(doc, AddOp(JsonPointer.Format(p), v)) == AddAt(doc, p, v)
    ensures ApplyOp(doc, RemoveOp(JsonPointer.Format(p))) == RemoveAt(doc, p)
  {
    JsonPointer.ParseFormat(p);
  }

  lemma RemoveBelow(doc: Json, p: seq<string>, token: string, parent: Json)
    requires At(doc, p) == Ok(parent)
    ensures
      var rest := Erase(parent, token);
      RemoveAt(doc, p + [token]) == if rest.Ok? then Put(doc, p, rest.value) else rest
  {
    assert (p + [token])[..|p|] == p;
  }

  lemma EraseLast(x: seq<Json>, i: nat)
    requires i + 1 == |x|
    ensures x[..i] + x[i + 1..] == x[..i]
  {
  }

  /** Removing the last element of an array at `p`. */
  lemma RemoveLastEffect(doc: Json, p: seq<string>, x: seq<Json>)
    requires At(doc, p) == Ok(Array(x)) && x != []
    ensures
      RemoveAt(doc, p + [Decimal.ToString(|x| - 1)]) ==
      if |x| - 1 <= Decimal.INT_MAX then Put(doc, p, Array(x[..|x| - 1])) else Err(StdOutOfRange)
  {
    IndexToken(|x| - 1);
    RemoveToken(doc, p, x, Decimal.ToString(|x| - 1));
  }

  lemma RemoveToken(doc: Json, p: seq<string>, x: seq<Json>, token: string)
    requires At(doc, p) == Ok(Array(x)) && x != []
    requires ArrayIndex(token) == if |x| - 1 <= Decimal.INT_MAX then Ok(|x| - 1) else Err(StdOutOfRange)
    ensures
      RemoveAt(doc, p + [token]) ==
      if |x| - 1 <= Decimal.INT_MAX then Put(doc, p, Array(x[..|x| - 1])) else Err(StdOutOfRange)
  {
    EraseToken(x, token, |x| - 1);
    RemoveBelow(doc, p, token, Array(x));
  }

  lemma EraseToken(x: seq<Json>, token: string, i: nat)
    requires i + 1 == |x|
    requires ArrayIndex(token) == if i <= Decimal.INT_MAX then Ok(i) else Err(StdOutOfRange)
    ensures Erase(Array(x), token) == if i <= Decimal.INT_MAX then Ok(Array(x[..i])) else Err(StdOutOfRange)
  {
    EraseLast(x, i);
  }

  /** Adding one element at the end of an array at `p`. */
  lemma InsertLast(x: seq<Json>, v: Json)
    ensures x[..|x|] + [v] + x[|x|..] == x + [v]
  {
  }

  lemma AppendEffect(doc: Json, p: seq<string>, x: seq<Json>, v: Json)
    requires At(doc, p) == Ok(Array(x))
    ensures
      AddAt(doc, p + [Decimal.ToString(|x|)], v) ==
      if |x| <= Decimal.INT_MAX then Put(doc, p, Array(x + [v])) else Err(StdOutOfRange)
  {
    IndexToken(|x|);
    AppendToken(doc, p, x, v, Decimal.ToString(|x|));
  }

  lemma AppendToken(doc: Json, p: seq<string>, x: seq<Json>, v: Json, token: string)
    requires At(doc, p) == Ok(Array(x)) && token != "-" && !LeadingZero(token)
    requires ArrayIndex(token) == if |x| <= Decimal.INT_MAX then Ok(|x|) else Err(StdOutOfRange)
    ensures
      AddAt(doc, p + [token], v) ==
      if |x| <= Decimal.INT_MAX then Put(doc, p, Array(x + [v])) else Err(StdOutOfRange)
  {
    AddBelow(doc, p, token, v);
    InsertLast(x, v);
  }

  lemma RemoveKeyEffect(doc: Json, p: seq<string>, m: map<string, Json>, key: string)
    requires At(doc, p) == Ok(Object(m)) && key in m
    ensures RemoveAt(doc, p + [key]) == Put(doc, p, Object(m - {key}))
  {
    RemoveBelow(doc, p, key, Object(m));
  }

  lemma AddKeyEffect(doc: Json, p: seq<string>, m: map<string, Json>, key: string, v: Json)
    requires At(doc, p) == Ok(Object(m))
    ensures AddAt(doc, p + [key], v) == Put(doc, p, Object(m[key := v]))
  {
    AddBelow(doc, p, key, v);
  }

  lemma {:induction false} InsertBlocked(j: Json, p: seq<string>, last: string, v: Json)
    requires At(j, p) == Err(StdOutOfRange)
    ensures InsertAt(j, p, last, v) == Err(StdOutOfRange)
    decreases |p|
  {
    match j
    case Object(m) => InsertBlocked(m[p[0]], p[1..], last, v);
    case Array(elems) =>
      if CheckedIndex(elems, p[0]).Ok? {
        InsertBlocked(elems[CheckedIndex(elems, p[0]).value], p[1..], last, v);
      }
  }

  /** An operation at or below a pointer whose index is too large to read fails the same way. */
  lemma OpsBlocked(doc: Json, p: seq<string>, token: string, v: Json)
    requires At(doc, p) == Err(StdOutOfRange)
    ensures Put(doc, p, v) == Err(StdOutOfRange)
    ensures AddAt(doc, p + [token], v) == Err(StdOutOfRange)
    ensures RemoveAt(doc, p + [token]) == Err(StdOutOfRange)
  {
    assert (p + [token])[..|p|] == p && (p + [token])[..1] == p[..1] && p == p[..1] + p[1..];
    AtConcat(doc, p[..1], p[1..]);
    InsertBlocked(doc, p, token, v);
  }

  lemma RemoveOne(doc: Json, p: seq<string>, token: string, path: string)
    requires path == JsonPointer.Format(p + [token])
    ensures ApplyAll(doc, [RemoveOp(path)]) == RemoveAt(doc, p + [token])
    ensures At(doc, p) == Err(StdOutOfRange) ==> ApplyAll(doc, [RemoveOp(path)]) == Err(StdOutOfRange)
  {
    OpsApply(doc, p + [token], Null);
    assert ApplyAll(doc, [RemoveOp(path)]) == ApplyOp(doc, RemoveOp(path));
    if At(doc, p) == Err(StdOutOfRange) {
      OpsBlocked(doc, p, token, Null);
    }
  }

  lemma AddOne(doc: Json, p: seq<string>, token: string, path: string, v: Json)
    requires path == JsonPointer.Format(p + [token])
    ensures ApplyAll(doc, [AddOp(path, v)]) == AddAt(doc, p + [token], v)
    ensures At(doc, p) == Err(StdOutOfRange) ==> ApplyAll(doc, [AddOp(path, v)]) == Err(StdOutOfRange)
  {
    OpsApply(doc, p + [token], v);
    assert ApplyAll(doc, [AddOp(path, v)]) == ApplyOp(doc, AddOp(path, v));
    if At(doc, p) == Err(StdOutOfRange) {
      OpsBlocked(doc, p, token, v);
    }
  }

  /// What a list of operations achieves below a pointer

  /**
    Starting from `doc` with `source` at `p`, the operations lead to `outcome`. And where the pointer `p` cannot even
    be read, any operation at all fails.
  */
  ghost predicate Reaches(doc: Json, p: seq<string>, source: Json, outcome: Result<Json>, ops: seq<Json>) {
    && (At(doc, p) == Ok(source) ==> ApplyAll(doc, ops) == outcome)
    && (At(doc, p) == Err(StdOutOfRange) ==> ApplyAll(doc, ops) == if ops == [] then Ok(doc) else Err(StdOutOfRange))
  }

  /** Where patching with the difference of `s` and `t` at `p` leads. */
  function Outcome(doc: Json, p: seq<string>, s: Json, t: Json): Result<Json> {
    if IndexesFit(s, t) then Put(doc, p, Merged(s, t)) else Err(StdOutOfRange)
  }

  /** The document that further operations are applied to; the start if the operations so far have failed. */
  function Current(doc: Json, ops: seq<Json>): Json {
    if ApplyAll(doc, ops).Ok? then ApplyAll(doc, ops).value else doc
  }

  lemma Extend(doc: Json, p: seq<string>, source: Json, before: Result<Json>, ops: seq<Json>,
               after: Result<Json>, more: seq<Json>)
    requires Reaches(doc, p, source, before, ops)
    requires At(doc, p) == Ok(source) ==> after == if before.Ok? then ApplyAll(before.value, more) else before
    requires At(doc, p) == Err(StdOutOfRange) && ops == [] ==>
               ApplyAll(doc, more) == if more == [] then Ok(doc) else Err(StdOutOfRange)
    ensures Reaches(doc, p, source, after, ops + more)
  {
    ApplyAllConcat(doc, ops, more);
  }

  /// Arrays

  function Shorter(x: seq<Json>, y: seq<Json>): nat {
    if |x| < |y| then |x| else |y|
  }

  /** The first `i` elements merged. */
  function MergedFront(x: seq<Json>, y: seq<Json>, i: nat): (r: seq<Json>)
    requires i <= |x| && i <= |y|
  {
    seq(|x|, k requires 0 <= k < |x| => if k < i then Merged(x[k], y[k]) else x[k])
  }

  ghost predicate FrontFits(x: seq<Json>, y: seq<Json>, i: nat)
    requires i <= |x| && i <= |y|
  {
    forall k :: 0 <= k < i ==> ElementFits(k, x[k], y[k]) && IndexesFit(x[k], y[k])
  }

  ghost function FrontOutcome(doc: Json, p: seq<string>, x: seq<Json>, y: seq<Json>, i: nat): Result<Json>
    requires i <= |x| && i <= |y|
  {
    if FrontFits(x, y, i) then Put(doc, p, Array(MergedFront(x, y, i))) else Err(StdOutOfRange)
  }

  lemma AtElement(doc: Json, p: seq<string>, x: seq<Json>, i: nat)
    requires At(doc, p) == Ok(Array(x)) && i < |x|
    ensures At(doc, p + [Decimal.ToString(i)]) == if i <= Decimal.INT_MAX then Ok(x[i]) else Err(StdOutOfRange)
    ensures i <= Decimal.INT_MAX ==>
              forall v :: Put(doc, p + [Decimal.ToString(i)], v) == Put(doc, p, Array(x[i := v]))
  {
    var token := Decimal.ToString(i);
    IndexToken(i);
    AtConcat(doc, p, [token]);
    if i <= Decimal.INT_MAX {
      forall v ensures Put(doc, p + [token], v) == Put(doc, p, Array(x[i := v])) {
        PutConcat(doc, p, [token], v);
      }
    }
  }

  lemma FrontByOne(x: seq<Json>, y: seq<Json>, i: nat)
    requires i < |x| && i < |y|
    ensures |MergedFront(x, y, i)| == |x| && MergedFront(x, y, i)[i] == x[i]
    ensures MergedFront(x, y, i)[i := Merged(x[i], y[i])] == MergedFront(x, y, i + 1)
    ensures Eq(x[i], y[i]) ==> MergedFront(x, y, i) == MergedFront(x, y, i + 1)
  {
  }

  /** What the operations for one element do to a document with the elements before it merged. */
  lemma ElementLands(d: Json, p: seq<string>, x: seq<Json>, y: seq<Json>, i: nat, more: seq<Json>)
    requires i < |x| && i < |y| && FrontFits(x, y, i) && At(d, p) == Ok(Array(MergedFront(x, y, i)))
    requires
      var q := p + [Decimal.ToString(i)];
      Reaches(d, q, x[i], Outcome(d, q, x[i], y[i]), more)
    requires more == [] <==> Eq(x[i], y[i])
    ensures ApplyAll(d, more) ==
            if FrontFits(x, y, i + 1) then Put(d, p, Array(MergedFront(x, y, i + 1))) else Err(StdOutOfRange)
  {
    AtElement(d, p, MergedFront(x, y, i), i);
    FrontByOne(x, y, i);
    FitsByOne(x, y, i);
    if more == [] {
      PutSame(d, p);
    }
  }

  lemma FitsByOne(x: seq<Json>, y: seq<Json>, i: nat)
    requires i < |x| && i < |y|
    ensures FrontFits(x, y, i + 1) <==> FrontFits(x, y, i) && ElementFits(i, x[i], y[i]) && IndexesFit(x[i], y[i])
  {
  }

  lemma ElementStep(doc: Json, p: seq<string>, x: seq<Json>, y: seq<Json>, i: nat, ops: seq<Json>, more: seq<Json>)
    requires i < |x| && i < |y|
    requires Reaches(doc, p, Array(x), FrontOutcome(doc, p, x, y, i), ops)
    requires
      var d, q := Current(doc, ops), p + [Decimal.ToString(i)];
      Reaches(d, q, x[i], Outcome(d, q, x[i], y[i]), more)
    requires more == [] <==> Eq(x[i], y[i])
    ensures Reaches(doc, p, Array(x), FrontOutcome(doc, p, x, y, i + 1), ops + more)
  {
    if At(doc, p) == Ok(Array(x)) && FrontFits(x, y, i) {
      var sub, next := MergedFront(x, y, i), MergedFront(x, y, i + 1);
      PutThenAt(doc, p, Array(sub), Array(next));
      ElementLands(Put(doc, p, Array(sub)).value, p, x, y, i, more);
    }
    AtConcat(doc, p, [Decimal.ToString(i)]);
    Extend(doc, p, Array(x), FrontOutcome(doc, p, x, y, i), ops, FrontOutcome(doc, p, x, y, i + 1), more);
  }

  /** The remove operations for the elements from `lo` up to `hi`, last element first. */
  function Removals(path: string, lo: nat, hi: nat): seq<Json>
    requires lo <= hi
  {
    if lo == hi then [] else [RemoveOp(IndexPath(path, hi - 1))] + Removals(path, lo, hi - 1)
  }

  lemma RemoveLastOp(doc: Json, p: seq<string>, x: seq<Json>)
    requires At(doc, p) == Ok(Array(x)) && x != []
    ensures
      ApplyAll(doc, [RemoveOp(IndexPath(JsonPointer.Format(p), |x| - 1))]) ==
      if |x| - 1 <= Decimal.INT_MAX then Put(doc, p, Array(x[..|x| - 1])) else Err(StdOutOfRange)
  {
    FormatIndex(p, |x| - 1);
    RemoveOne(doc, p, Decimal.ToString(|x| - 1), IndexPath(JsonPointer.Format(p), |x| - 1));
    RemoveLastEffect(doc, p, x);
  }

  /** Removing from the back never invalidates an index. */
  lemma {:induction false} RemovalsEffect(doc: Json, p: seq<string>, x: seq<Json>, lo: nat)
    requires At(doc, p) == Ok(Array(x)) && lo <= |x|
    ensures
      ApplyAll(doc, Removals(JsonPointer.Format(p), lo, |x|)) ==
      if lo == |x| || |x| - 1 <= Decimal.INT_MAX then Put(doc, p, Array(x[..lo])) else Err(StdOutOfRange)
    decreases |x|
  {
    if lo == |x| {
      assert x[..lo] == x;
      PutSame(doc, p);
    } else {
      var path, shorter := JsonPointer.Format(p), x[..|x| - 1];
      var last := [RemoveOp(IndexPath(path, |x| - 1))];
      RemoveLastOp(doc, p, x);
      ApplyAllConcat(doc, last, Removals(path, lo, |x| - 1));
      if |x| - 1 <= Decimal.INT_MAX {
        var next := Put(doc, p, Array(shorter)).value;
        PutThenAt(doc, p, Array(shorter), Array(shorter[..lo]));
        RemovalsEffect(next, p, shorter, lo);
        assert shorter[..lo] == x[..lo];
      }
    }
  }

  lemma RemovalsBlocked(doc: Json, p: seq<string>, lo: nat, hi: nat)
    requires At(doc, p) == Err(StdOutOfRange) && lo < hi
    ensures ApplyAll(doc, Removals(JsonPointer.Format(p), lo, hi)) == Err(StdOutOfRange)
  {
    var path := JsonPointer.Format(p);
    FormatIndex(p, hi - 1);
    RemoveOne(doc, p, Decimal.ToString(hi - 1), IndexPath(path, hi - 1));
    ApplyAllConcat(doc, [RemoveOp(IndexPath(path, hi - 1))], Removals(path, lo, hi - 1));
  }

  ghost function TrimmedOutcome(doc: Json, p: seq<string>, x: seq<Json>, y: seq<Json>): Result<Json> {
    var n := Shorter(x, y);
    if FrontFits(x, y, n) && (|x| == n || |x| - 1 <= Decimal.INT_MAX)
    then Put(doc, p, Array(MergedFront(x, y, n)[..n])) else Err(StdOutOfRange)
  }

  lemma TrimStep(doc: Json, p: seq<string>, x: seq<Json>, y: seq<Json>, ops: seq<Json>)
    requires Reaches(doc, p, Array(x), FrontOutcome(doc, p, x, y, Shorter(x, y)), ops)
    ensures
      var n := Shorter(x, y);
      Reaches(doc, p, Array(x), TrimmedOutcome(doc, p, x, y), ops + Removals(JsonPointer.Format(p), n, |x|))
  {
    var n := Shorter(x, y);
    var removals := Removals(JsonPointer.Format(p), n, |x|);
    if At(doc, p) == Ok(Array(x)) && FrontFits(x, y, n) {
      var sub := MergedFront(x, y, n);
      var d := Put(doc, p, Array(sub)).value;
      PutThenAt(doc, p, Array(sub), Array(sub[..n]));
      RemovalsEffect(d, p, sub, n);
    }
    if At(doc, p) == Err(StdOutOfRange) && n < |x| {
      RemovalsBlocked(doc, p, n, |x|);
    }
    Extend(doc, p, Array(x), FrontOutcome(doc, p, x, y, n), ops, TrimmedOutcome(doc, p, x, y), removals);
  }

  /** Merged as far as the source goes, then the target's own elements up to `i`. */
  function Grown(x: seq<Json>, y: seq<Json>, i: nat): seq<Json>
    requires i <= |y| && Shorter(x, y) <= i
  {
    var n := Shorter(x, y);
    MergedFront(x, y, n)[..n] + y[n..i]
  }

  ghost function GrownOutcome(doc: Json, p: seq<string>, x: seq<Json>, y: seq<Json>, i: nat): Result<Json>
    requires i <= |y| && Shorter(x, y) <= i
  {
    var n := Shorter(x, y);
    if FrontFits(x, y, n) && (|x| == n || |x| - 1 <= Decimal.INT_MAX) && (i == n || i - 1 <= Decimal.INT_MAX)
    then Put(doc, p, Array(Grown(x, y, i))) else Err(StdOutOfRange)
  }

  lemma TrimmedIsGrown(doc: Json, p: seq<string>, x: seq<Json>, y: seq<Json>)
    ensures TrimmedOutcome(doc, p, x, y) == GrownOutcome(doc, p, x, y, Shorter(x, y))
  {
    assert Grown(x, y, Shorter(x, y)) == MergedFront(x, y, Shorter(x, y))[..Shorter(x, y)];
  }

  lemma AppendLands(doc: Json, p: seq<string>, x: seq<Json>, y: seq<Json>, i: nat, op: Json)
    requires Shorter(x, y) <= i < |y|
    requires At(doc, p) == Ok(Array(Grown(x, y, i)))
    requires op == AddOp(IndexPath(JsonPointer.Format(p), i), y[i])
    ensures
      ApplyAll(doc, [op]) ==
      if i <= Decimal.INT_MAX then Put(doc, p, Array(Grown(x, y, i + 1))) else Err(StdOutOfRange)
  {
    GrowByOne(x, y, i);
    AppendOne(doc, p, Grown(x, y, i), y[i], op);
  }

  lemma GrowByOne(x: seq<Json>, y: seq<Json>, i: nat)
    requires Shorter(x, y) <= i < |y|
    ensures |Grown(x, y, i)| == i && Grown(x, y, i + 1) == Grown(x, y, i) + [y[i]]
  {
  }

  lemma AppendOne(doc: Json, p: seq<string>, elems: seq<Json>, v: Json, op: Json)
    requires At(doc, p) == Ok(Array(elems)) && op == AddOp(IndexPath(JsonPointer.Format(p), |elems|), v)
    ensures
      ApplyAll(doc, [op]) ==
      if |elems| <= Decimal.INT_MAX then Put(doc, p, Array(elems + [v])) else Err(StdOutOfRange)
  {
    FormatIndex(p, |elems|);
    AddOne(doc, p, Decimal.ToString(|elems|), IndexPath(JsonPointer.Format(p), |elems|), v);
    AppendEffect(doc, p, elems, v);
  }

  lemma AppendBlocked(doc: Json, p: seq<string>, i: nat, op: Json, v: Json)
    requires At(doc, p) == Err(StdOutOfRange)
    requires op == AddOp(IndexPath(JsonPointer.Format(p), i), v)
    ensures ApplyAll(doc, [op]) == Err(StdOutOfRange)
  {
    FormatIndex(p, i);
    AddOne(doc, p, Decimal.ToString(i), IndexPath(JsonPointer.Format(p), i), v);
  }

  lemma AppendStep(doc: Json, p: seq<string>, x: seq<Json>, y: seq<Json>, i: nat, ops: seq<Json>, op: Json)
    requires Shorter(x, y) <= i < |y|
    requires op == AddOp(IndexPath(JsonPointer.Format(p), i), y[i])
    requires Reaches(doc, p, Array(x), GrownOutcome(doc, p, x, y, i), ops)
    ensures Reaches(doc, p, Array(x), GrownOutcome(doc, p, x, y, i + 1), ops + [op])
  {
    var before := GrownOutcome(doc, p, x, y, i);
    if At(doc, p) == Ok(Array(x)) && before.Ok? {
      PutThenAt(doc, p, Array(Grown(x, y, i)), Array(Grown(x, y, i + 1)));
      AppendLands(before.value, p, x, y, i, op);
    }
    if At(doc, p) == Err(StdOutOfRange) {
      AppendBlocked(doc, p, i, op, y[i]);
    }
    Extend(doc, p, Array(x), before, ops, GrownOutcome(doc, p, x, y, i + 1), [op]);
  }

  /** The three passes together make the whole array edit. */
  lemma ArraysDone(doc: Json, p: seq<string>, x: seq<Json>, y: seq<Json>, ops: seq<Json>)
    requires !Eq(Array(x), Array(y))
    requires Reaches(doc, p, Array(x), GrownOutcome(doc, p, x, y, |y|), ops)
    ensures Reaches(doc, p, Array(x), Outcome(doc, p, Array(x), Array(y)), ops)
  {
    assert Grown(x, y, |y|) == Merged(Array(x), Array(y)).elems;
  }

  /// Objects

  /** The members still to visit as they were, the others merged or gone. */
  function MergedMembers(x: map<string, Json>, y: map<string, Json>, rest: set<string>): map<string, Json> {
    map k | k in x && (k in rest || k in y) :: if k in rest then x[k] else Merged(x[k], y[k])
  }

  ghost predicate MembersFit(x: map<string, Json>, y: map<string, Json>, rest: set<string>) {
    forall k :: k in x && k in y && k !in rest ==> IndexesFit(x[k], y[k])
  }

  ghost function MembersOutcome(doc: Json, p: seq<string>, x: map<string, Json>, y: map<string, Json>,
                                rest: set<string>)
    : Result<Json>
  {
    if MembersFit(x, y, rest) then Put(doc, p, Object(MergedMembers(x, y, rest))) else Err(StdOutOfRange)
  }

  lemma AtMember(doc: Json, p: seq<string>, m: map<string, Json>, key: string)
    requires At(doc, p) == Ok(Object(m)) && key in m
    ensures At(doc, p + [key]) == Ok(m[key])
    ensures forall v :: Put(doc, p + [key], v) == Put(doc, p, Object(m[key := v]))
  {
    AtConcat(doc, p, [key]);
    forall v ensures Put(doc, p + [key], v) == Put(doc, p, Object(m[key := v])) {
      PutConcat(doc, p, [key], v);
    }
  }

  lemma MembersByOne(x: map<string, Json>, y: map<string, Json>, rest: set<string>, key: string)
    requires key in x && key in y && key in rest
    ensures MergedMembers(x, y, rest)[key := Merged(x[key], y[key])] == MergedMembers(x, y, rest - {key})
    ensures key in MergedMembers(x, y, rest) && MergedMembers(x, y, rest)[key] == x[key]
    ensures MembersFit(x, y, rest - {key}) <==> MembersFit(x, y, rest) && IndexesFit(x[key], y[key])
  {
  }

  lemma MemberStep(doc: Json, p: seq<string>, x: map<string, Json>, y: map<string, Json>, rest: set<string>,
                   key: string, ops: seq<Json>, more: seq<Json>)
    requires key in x && key in y && key in rest
    requires Reaches(doc, p, Object(x), MembersOutcome(doc, p, x, y, rest), ops)
    requires
      var d, q := Current(doc, ops), p + [key];
      Reaches(d, q, x[key], Outcome(d, q, x[key], y[key]), more)
    ensures Reaches(doc, p, Object(x), MembersOutcome(doc, p, x, y, rest - {key}), ops + more)
  {
    var before, after := MembersOutcome(doc, p, x, y, rest), MembersOutcome(doc, p, x, y, rest - {key});
    if At(doc, p) == Ok(Object(x)) && before.Ok? {
      var sub, next := MergedMembers(x, y, rest), MergedMembers(x, y, rest - {key});
      PutThenAt(doc, p, Object(sub), Object(next));
      AtMember(before.value, p, sub, key);
      MembersByOne(x, y, rest, key);
    }
    AtConcat(doc, p, [key]);
    Extend(doc, p, Object(x), before, ops, after, more);
  }

  lemma RemoveLands(doc: Json, p: seq<string>, x: map<string, Json>, y: map<string, Json>, rest: set<string>,
                    key: string, op: Json)
    requires key in x && key !in y && key in rest
    requires At(doc, p) == Ok(Object(MergedMembers(x, y, rest)))
    requires op == RemoveOp(KeyPath(JsonPointer.Format(p), key))
    ensures ApplyAll(doc, [op]) == Put(doc, p, Object(MergedMembers(x, y, rest - {key})))
  {
    FormatKey(p, key);
    RemoveOne(doc, p, key, KeyPath(JsonPointer.Format(p), key));
    RemoveKeyEffect(doc, p, MergedMembers(x, y, rest), key);
    WithoutKey(x, y, rest, key);
  }

  lemma WithoutKey(x: map<string, Json>, y: map<string, Json>, rest: set<string>, key: string)
    requires key in x && key !in y && key in rest
    ensures MergedMembers(x, y, rest) - {key} == MergedMembers(x, y, rest - {key})
    ensures key in MergedMembers(x, y, rest)
  {
  }

  lemma RemoveStep(doc: Json, p: seq<string>, x: map<string, Json>, y: map<string, Json>, rest: set<string>,
                   key: string, ops: seq<Json>, op: Json)
    requires key in x && key !in y && key in rest
    requires op == RemoveOp(KeyPath(JsonPointer.Format(p), key))
    requires Reaches(doc, p, Object(x), MembersOutcome(doc, p, x, y, rest), ops)
    ensures Reaches(doc, p, Object(x), MembersOutcome(doc, p, x, y, rest - {key}), ops + [op])
  {
    var before, after := MembersOutcome(doc, p, x, y, rest), MembersOutcome(doc, p, x, y, rest - {key});
    if At(doc, p) == Ok(Object(x)) && before.Ok? {
      PutThenAt(doc, p, Object(MergedMembers(x, y, rest)), Object(MergedMembers(x, y, rest - {key})));
      RemoveLands(before.value, p, x, y, rest, key, op);
    }
    if At(doc, p) == Err(StdOutOfRange) {
      FormatKey(p, key);
      RemoveOne(doc, p, key, KeyPath(JsonPointer.Format(p), key));
    }
    Extend(doc, p, Object(x), before, ops, after, [op]);
  }

  /** The merged members, and the target's own ones that are not still to be added. */
  function GrownMembers(x: map<string, Json>, y: map<string, Json>, rest: set<string>): map<string, Json> {
    map k | k in y && k !in rest :: if k in x then Merged(x[k], y[k]) else y[k]
  }

  ghost function GrownMembersOutcome(doc: Json, p: seq<string>, x: map<string, Json>, y: map<string, Json>,
                                     rest: set<string>): Result<Json>
  {
    if MembersFit(x, y, {}) then Put(doc, p, Object(GrownMembers(x, y, rest))) else Err(StdOutOfRange)
  }

  lemma AddLands(doc: Json, p: seq<string>, x: map<string, Json>, y: map<string, Json>, rest: set<string>,
                 key: string, op: Json)
    requires key !in x && key in y && key in rest
    requires At(doc, p) == Ok(Object(GrownMembers(x, y, rest)))
    requires op == AddOp(KeyPath(JsonPointer.Format(p), key), y[key])
    ensures ApplyAll(doc, [op]) == Put(doc, p, Object(GrownMembers(x, y, rest - {key})))
  {
    FormatKey(p, key);
    AddOne(doc, p, key, KeyPath(JsonPointer.Format(p), key), y[key]);
    AddKeyEffect(doc, p, GrownMembers(x, y, rest), key, y[key]);
    assert GrownMembers(x, y, rest)[key := y[key]] == GrownMembers(x, y, rest - {key});
  }

  lemma AddStep(doc: Json, p: seq<string>, x: map<string, Json>, y: map<string, Json>, rest: set<string>, key: string,
                ops: seq<Json>, op: Json)
    requires key !in x && key in y && key in rest
    requires op == AddOp(KeyPath(JsonPointer.Format(p), key), y[key])
    requires Reaches(doc, p, Object(x), GrownMembersOutcome(doc, p, x, y, rest), ops)
    ensures Reaches(doc, p, Object(x), GrownMembersOutcome(doc, p, x, y, rest - {key}), ops + [op])
  {
    var before, after := GrownMembersOutcome(doc, p, x, y, rest), GrownMembersOutcome(doc, p, x, y, rest - {key});
    if At(doc, p) == Ok(Object(x)) && before.Ok? {
      PutThenAt(doc, p, Object(GrownMembers(x, y, rest)), Object(GrownMembers(x, y, rest - {key})));
      AddLands(before.value, p, x, y, rest, key, op);
    }
    if At(doc, p) == Err(StdOutOfRange) {
      FormatKey(p, key);
      AddOne(doc, p, key, KeyPath(JsonPointer.Format(p), key), y[key]);
    }
    Extend(doc, p, Object(x), before, ops, after, [op]);
  }

  lemma MembersDone(doc: Json, p: seq<string>, x: map<string, Json>, y: map<string, Json>, ops: seq<Json>)
    requires Reaches(doc, p, Object(x), MembersOutcome(doc, p, x, y, {}), ops)
    ensures Reaches(doc, p, Object(x), GrownMembersOutcome(doc, p, x, y, y.Keys - x.Keys), ops)
  {
    assert MergedMembers(x, y, {}) == GrownMembers(x, y, y.Keys - x.Keys);
  }

  lemma ObjectsDone(doc: Json, p: seq<string>, x: map<string, Json>, y: map<string, Json>, ops: seq<Json>)
    requires !Eq(Object(x), Object(y))
    requires Reaches(doc, p, Object(x), GrownMembersOutcome(doc, p, x, y, {}), ops)
    ensures Reaches(doc, p, Object(x), Outcome(doc, p, Object(x), Object(y)), ops)
  {
    assert GrownMembers(x, y, {}) == Merged(Object(x), Object(y)).members;
  }

  /// diff

  lemma ReplaceReaches(doc: Json, p: seq<string>, s: Json, t: Json)
    requires !Eq(s, t) && !(s.Array? && t.Array?) && !(s.Object? && t.Object?)
    ensures Reaches(doc, p, s, Outcome(doc, p, s, t), [ReplaceOp(JsonPointer.Format(p), t)])
  {
    OpsApply(doc, p, t);
    var op := ReplaceOp(JsonPointer.Format(p), t);
    assert ApplyAll(doc, [op]) == ApplyOp(doc, op);
  }

  lemma NothingReaches(doc: Json, p: seq<string>, s: Json)
    ensures Reaches(doc, p, s, Put(doc, p, s), [])
  {
    if At(doc, p) == Ok(s) {
      PutSame(doc, p);
    }
  }

  /**
    The operations that turn `source` into `target` below the pointer `path`. The ghost arguments name the tokens of
    the pointer and any document with `source` there: patching it leads where `Outcome` says.
  */
  method Diff(source: Json, target: Json, path: string, ghost p: seq<string>, ghost doc: Json)
    returns (ops: seq<Json>)
    requires path == JsonPointer.Format(p)
    ensures Reaches(doc, p, source, Outcome(doc, p, source, target), ops)
    ensures ops == [] <==> Eq(source, target)
    decreases source, 2
  {
    if Eq(source, target) {
      NothingReaches(doc, p, source);
      return [];
    }
    if source.Array? && target.Array? {
      ops := DiffArrays(source.elems, target.elems, path, p, doc);
    } else if source.Object? && target.Object? {
      ops := DiffObjects(source.members, target.members, path, p, doc);
    } else {
      ReplaceReaches(doc, p, source, target);
      ops := [ReplaceOp(path, target)];
    }
  }

  /** First pass: the elements both arrays have. */
  method DiffCommon(x: seq<Json>, y: seq<Json>, path: string, ghost p: seq<string>, ghost doc: Json)
    returns (ops: seq<Json>, i: nat)
    requires path == JsonPointer.Format(p)
    ensures i == Shorter(x, y)
    ensures Reaches(doc, p, Array(x), FrontOutcome(doc, p, x, y, i), ops)
    ensures ops == [] <==> forall k :: 0 <= k < i ==> Eq(x[k], y[k])
    decreases Array(x), 0
  {
    ops, i := [], 0;
    NothingReaches(doc, p, Array(x));
    assert MergedFront(x, y, 0) == x;
    while i < |x| && i < |y|
      invariant i <= |x| && i <= |y|
      invariant Reaches(doc, p, Array(x), FrontOutcome(doc, p, x, y, i), ops)
      invariant ops == [] <==> forall k :: 0 <= k < i ==> Eq(x[k], y[k])
    {
      FormatIndex(p, i);
      var temp := Diff(x[i], y[i], IndexPath(path, i), p + [Decimal.ToString(i)], Current(doc, ops));
      ElementStep(doc, p, x, y, i, ops, temp);
      ops := ops + temp;
      i := i + 1;
    }
  }

  /** Second pass: remove operations for the elements from `from` on, each put in front of the ones before it. */
  method InsertRemovals(before: seq<Json>, path: string, from: nat, size: nat) returns (ops: seq<Json>)
    requires from <= size
    ensures ops == before + Removals(path, from, size)
  {
    ops := before;
    var endIndex := |ops|;
    var i := from;
    while i < size
      invariant from <= i <= size
      invariant ops == before + Removals(path, from, i)
    {
      ops := ops[..endIndex] + [RemoveOp(IndexPath(path, i))] + ops[endIndex..];
      i := i + 1;
    }
  }

  /** Last pass: add operations for the elements only the target has. */
  method AppendRest(before: seq<Json>, x: seq<Json>, y: seq<Json>, path: string, ghost p: seq<string>, ghost doc: Json)
    returns (ops: seq<Json>)
    requires path == JsonPointer.Format(p)
    requires Reaches(doc, p, Array(x), GrownOutcome(doc, p, x, y, Shorter(x, y)), before)
    ensures Reaches(doc, p, Array(x), GrownOutcome(doc, p, x, y, |y|), ops)
    ensures ops == [] ==> before == [] && |y| <= |x|
  {
    ops := before;
    var i := |x|;
    while i < |y|
      invariant |x| <= i && (i <= |y| || i == |x|)
      invariant Reaches(doc, p, Array(x), GrownOutcome(doc, p, x, y, if i < |y| then i else |y|), ops)
      invariant ops == [] ==> before == [] && i == |x|
    {
      var op := AddOp(IndexPath(path, i), y[i]);
      AppendStep(doc, p, x, y, i, ops, op);
      ops := ops + [op];
      i := i + 1;
    }
  }

  method DiffArrays(x: seq<Json>, y: seq<Json>, path: string, ghost p: seq<string>, ghost doc: Json)
    returns (ops: seq<Json>)
    requires path == JsonPointer.Format(p) && !Eq(Array(x), Array(y))
    ensures Reaches(doc, p, Array(x), Outcome(doc, p, Array(x), Array(y)), ops)
    ensures ops != []
    decreases Array(x), 1
  {
    var common, n := DiffCommon(x, y, path, p, doc);
    TrimStep(doc, p, x, y, common);
    TrimmedIsGrown(doc, p, x, y);
    var trimmed := InsertRemovals(common, path, n, |x|);
    ops := AppendRest(trimmed, x, y, path, p, doc);
    ArraysDone(doc, p, x, y, ops);
  }

  method DiffObjects(x: map<string, Json>, y: map<string, Json>, path: string, ghost p: seq<string>, ghost doc: Json)
    returns (ops: seq<Json>)
    requires path == JsonPointer.Format(p) && !Eq(Object(x), Object(y))
    ensures Reaches(doc, p, Object(x), Outcome(doc, p, Object(x), Object(y)), ops)
    ensures ops != []
    decreases Object(x), 1
  {
    ops := DiffMembers(x, y, path, p, doc);
    MembersDone(doc, p, x, y, ops);
    ops := AddMembers(x, y, path, p, doc, ops);
    ObjectsDone(doc, p, x, y, ops);
    if ops == [] {
      EqualMembers(x, y);
    }
  }

  lemma EqualMembers(x: map<string, Json>, y: map<string, Json>)
    requires y.Keys - x.Keys == {} && forall k :: k in x ==> k in y && Eq(x[k], y[k])
    ensures Eq(Object(x), Object(y))
  {
    assert forall k :: k in y ==> k in x by {
      forall k | k in y ensures k in x {
        assert k !in y.Keys - x.Keys;
      }
    }
    assert x.Keys == y.Keys;
  }

  /** The first pass: members of both, and members to remove. */
  method DiffMembers(x: map<string, Json>, y: map<string, Json>, path: string, ghost p: seq<string>, ghost doc: Json)
    returns (ops: seq<Json>)
    requires path == JsonPointer.Format(p)
    ensures Reaches(doc, p, Object(x), MembersOutcome(doc, p, x, y, {}), ops)
    ensures ops == [] ==> forall k :: k in x ==> k in y && Eq(x[k], y[k])
    decreases Object(x), 0
  {
    ops := [];
    var rest := x.Keys;
    NothingReaches(doc, p, Object(x));
    assert MergedMembers(x, y, rest) == x;
    while rest != {}
      invariant rest <= x.Keys
      invariant Reaches(doc, p, Object(x), MembersOutcome(doc, p, x, y, rest), ops)
      invariant ops == [] ==> forall k :: k in x && k !in rest ==> k in y && Eq(x[k], y[k])
    {
      var key :| key in rest;
      if key in y {
        FormatKey(p, key);
        var temp := Diff(x[key], y[key], KeyPath(path, key), p + [key], Current(doc, ops));
        MemberStep(doc, p, x, y, rest, key, ops, temp);
        ops := ops + temp;
      } else {
        var op := RemoveOp(KeyPath(path, key));
        RemoveStep(doc, p, x, y, rest, key, ops, op);
        ops := ops + [op];
      }
      rest := rest - {key};
    }
  }

  /** The second pass: members to add. */
  method AddMembers(x: map<string, Json>, y: map<string, Json>, path: string, ghost p: seq<string>, ghost doc: Json,
                    done: seq<Json>)
    returns (ops: seq<Json>)
    requires path == JsonPointer.Format(p)
    requires Reaches(doc, p, Object(x), GrownMembersOutcome(doc, p, x, y, y.Keys - x.Keys), done)
    ensures Reaches(doc, p, Object(x), GrownMembersOutcome(doc, p, x, y, {}), ops)
    ensures ops == [] ==> done == [] && y.Keys - x.Keys == {}
  {
    ops := done;
    var rest := y.Keys - x.Keys;
    ghost var added := rest;
    while rest != {}
      invariant rest <= added
      invariant Reaches(doc, p, Object(x), GrownMembersOutcome(doc, p, x, y, rest), ops)
      invariant ops == [] ==> rest == added && done == []
    {
      var key :| key in rest;
      var op := AddOp(KeyPath(path, key), y[key]);
      AddStep(doc, p, x, y, rest, key, ops, op);
      ops := ops + [op];
      rest := rest - {key};
    }
  }

  /**
    The documented invariant: patching the source with the difference gives something equal to the target. It holds
    exactly when the differing array indexes fit an int and the target holds no NaN and nothing discarded. And it gives
    the target itself exactly when no number of the source is kept for an equal one of another type.
  */
  method DiffThenPatch(source: Json, target: Json) returns (r: Result<Json>)
    ensures r == if IndexesFit(source, target) then Ok(Merged(source, target)) else Err(StdOutOfRange)
    ensures (r.Ok? && Eq(r.value, target)) <==> IndexesFit(source, target) && Comparable(target)
    ensures r == Ok(target) <==> IndexesFit(source, target) && TypesKept(source, target)
    ensures NumbersAlike(source, target) ==> TypesKept(source, target)
  {
    var ops := Diff(source, target, "", [], source);
    r := Patch(source, Array(ops));
    assert At(source, []) == Ok(source);
    MergedEqualsTarget(source, target);
    MergedIsTarget(source, target);
    if NumbersAlike(source, target) {
      AlikeKeepsTypes(source, target);
    }
  }

  /** An integer stays where the target has the equal double: the difference of the two is empty. */
  method EqualNumberIsKept() returns (r: Result<Json>)
    ensures r == Ok(Integer(1)) && Eq(r.value, Float(Finite(1.0)))
  {
    IntegerMeetsFloat(1, Finite(1.0));
    r := DiffThenPatch(Integer(1), Float(Finite(1.0)));
  }

  /** Patching reaches a NaN in the target, which equals nothing: the documented invariant is false there. */
  method NaNIsNotEqualToItself() returns (r: Result<Json>)
    ensures r == Ok(Float(NaN)) && !Eq(r.value, Float(NaN))
  {
    r := DiffThenPatch(Null, Float(NaN));
  }

  /** One element too many: the pointer to it cannot be read back, and patching throws. */
  method LongArrayIsNotReached() returns (r: Result<Json>)
    ensures !IndexesFit(Array([]), Array(seq(Decimal.INT_MAX + 2, _ => Null)))
    ensures r == Err(StdOutOfRange)
  {
    var long := seq(Decimal.INT_MAX + 2, _ => Null);
    r := DiffThenPatch(Array([]), Array(long));
  }

  /** An add below a string, which exists, fails the assertion that such a parent cannot exist. */
  lemma AddBelowString(text: string, v: Json)
    ensures
      var doc := Object(map["a" := String(text)]);
      Patched(doc, Array([AddOp(JsonPointer.Format(["a", "b"]), v)])) == Err(Undefined)
  {
    var doc := Object(map["a" := String(text)]);
    var op := AddOp(JsonPointer.Format(["a", "b"]), v);
    OpsApply(doc, ["a", "b"], v);
    AtConcat(doc, ["a"], []);
    assert ["a"] + ["b"] == ["a", "b"];
    assert At(doc, ["a"]) == Ok(String(text));
    AddBelowPrimitive(doc, ["a"], "b", v);
    assert ApplyAll(doc, [op]) == Err(Undefined);
  }
}
