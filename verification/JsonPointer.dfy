/** Results of the JSON code: a value, or the exception thrown, by its number. */
module JsonResult {

  datatype Error =
    | ParseError(id: nat) | OutOfRange(id: nat) | OtherError(id: nat)
    | StdInvalidArgument | StdOutOfRange   // thrown by std::stoi
    | StdLengthError                       // thrown when an array would grow without bound
    | Undefined                            // an assertion that fails, or undefined behaviour in a release build

  datatype Result<+T> = Ok(value: T) | Err(error: Error) {
    predicate IsFailure() {
      Err?
    }

    function PropagateFailure<U>(): Result<U>
      requires Err?
    {
      Err(error)
    }

    function Extract(): T
      requires Ok?
    {
      value
    }
  }
}

/** JSON pointers as strings: RFC 6901, sections 3 and 4. */
module JsonPointer {
  import opened JsonResult

  /** Replaces every occurrence of `f`, leftmost first, without looking again at what was put in. */
  function ReplaceAll(s: string, f: string, t: string): string
    requires f != ""
  {
    if |s| < |f| then s
    else if s[..|f|] == f then t + ReplaceAll(s[|f|..], f, t)
    else [s[0]] + ReplaceAll(s[1..], f, t)
  }

  function Escape(s: string): string {
    ReplaceAll(ReplaceAll(s, "~", "~0"), "/", "~1")
  }

  function Unescape(s: string): string {
    ReplaceAll(ReplaceAll(s, "~1", "/"), "~0", "~")
  }

  /** Every tilde is followed by 0 or 1. */
  predicate WellEscaped(s: string) {
    forall i :: 0 <= i < |s| && s[i] == '~' ==> i + 1 < |s| && (s[i + 1] == '0' || s[i + 1] == '1')
  }

  function SplitAtSlashes(s: string): (parts: seq<string>)
    ensures parts != []
  {
    if s == "" then [""]
    else
      var rest := SplitAtSlashes(s[1..]);
      if s[0] == '/' then [""] + rest else [[s[0]] + rest[0]] + rest[1..]
  }

  function UnescapeAll(parts: seq<string>): Result<seq<string>> {
    if parts == [] then Ok([])
    else if !WellEscaped(parts[0]) then Err(ParseError(108))
    else
      var rest :- UnescapeAll(parts[1..]);
      Ok([Unescape(parts[0])] + rest)
  }

  /** The reference tokens of a pointer. */
  function Parse(s: string): Result<seq<string>> {
    if s == "" then Ok([])
    else if s[0] != '/' then Err(ParseError(107))
    else UnescapeAll(SplitAtSlashes(s[1..]))
  }

  /** The pointer with the given tokens, built by appending escaped tokens. */
  function Format(tokens: seq<string>): string {
    if tokens == [] then "" else Format(tokens[..|tokens| - 1]) + "/" + Escape(tokens[|tokens| - 1])
  }

  /// Escaping, one character at a time

  function EscapeChar(c: char): string {
    if c == '~' then "~0" else if c == '/' then "~1" else [c]
  }

  function EscapeTilde(c: char): string {
    if c == '~' then "~0" else [c]
  }

  lemma EscapeStep(s: string)
    requires s != ""
    ensures ReplaceAll(s, "~", "~0") == EscapeTilde(s[0]) + ReplaceAll(s[1..], "~", "~0")
    ensures Escape(s) == EscapeChar(s[0]) + Escape(s[1..])
  {
    assert s[..1] == [s[0]];
    EscapeTail(s[0], ReplaceAll(s[1..], "~", "~0"));
  }

  lemma EscapeTail(c: char, tail: string)
    ensures ReplaceAll(EscapeTilde(c) + tail, "/", "~1") == EscapeChar(c) + ReplaceAll(tail, "/", "~1")
  {
    var all := EscapeTilde(c) + tail;
    if c == '~' {
      assert all[1..][1..] == tail && all[..1] == "~" && all[1..][..1] == "0";
      assert ReplaceAll(all, "/", "~1") == "~" + ReplaceAll(all[1..], "/", "~1");
    } else {
      assert all[1..] == tail && all[..1] == [c];
    }
  }

  /** The first pass of unescaping undoes the second pass of escaping. */
  lemma {:induction false} UnescapeSlashes(s: string)
    ensures ReplaceAll(Escape(s), "~1", "/") == ReplaceAll(s, "~", "~0")
  {
    if s != "" {
      UnescapeSlashes(s[1..]);
      EscapeStep(s);
      var e, rest := Escape(s), Escape(s[1..]);
      if s[0] == '/' {
        assert e[..2] == "~1" && e[2..] == rest;
      } else if s[0] == '~' {
        assert e[..2] == "~0" && e[1..][1..] == rest && e[1] == '0';
        assert ReplaceAll(e, "~1", "/") == "~" + ReplaceAll(e[1..], "~1", "/");
        OneChar(e[1..], "~1", "/");
      } else {
        OneChar(e, "~1", "/");
        assert e[1..] == rest;
      }
    }
  }

  /** A character that does not start a match is kept. */
  lemma OneChar(s: string, f: string, t: string)
    requires s != "" && f != "" && s[0] != f[0]
    ensures ReplaceAll(s, f, t) == [s[0]] + ReplaceAll(s[1..], f, t)
  {
    if |s| >= |f| {
      assert s[..|f|][0] != f[0];
    } else {
      assert s == [s[0]] + s[1..];
    }
  }

  lemma {:induction false} UnescapeTildes(s: string)
    ensures ReplaceAll(ReplaceAll(s, "~", "~0"), "~0", "~") == s
  {
    if s != "" {
      UnescapeTildes(s[1..]);
      EscapeStep(s);
      var e, rest := ReplaceAll(s, "~", "~0"), ReplaceAll(s[1..], "~", "~0");
      assert s == [s[0]] + s[1..];
      if s[0] == '~' {
        assert e[..2] == "~0" && e[2..] == rest;
      } else {
        OneChar(e, "~0", "~");
        assert e[1..] == rest;
      }
    }
  }

  lemma UnescapeUndoesEscape(s: string)
    ensures Unescape(Escape(s)) == s
  {
    UnescapeSlashes(s);
    UnescapeTildes(s);
  }

  lemma {:induction false} EscapedIsClean(s: string)
    ensures '/' !in Escape(s) && WellEscaped(Escape(s))
  {
    if s != "" {
      EscapedIsClean(s[1..]);
      EscapeStep(s);
      var e, c, rest := Escape(s), EscapeChar(s[0]), Escape(s[1..]);
      forall i | 0 <= i < |e| && e[i] == '~' ensures i + 1 < |e| && (e[i + 1] == '0' || e[i + 1] == '1') {
        if i >= |c| {
          assert e[i] == rest[i - |c|];
        }
      }
    }
  }

  /// Parsing what was formatted

  lemma {:induction false} SplitToken(token: string, rest: string)
    requires '/' !in token
    ensures SplitAtSlashes(token) == [token]
    ensures SplitAtSlashes(token + "/" + rest) == [token] + SplitAtSlashes(rest)
  {
    var s := token + "/" + rest;
    if token == "" {
      assert s[1..] == rest;
    } else {
      SplitToken(token[1..], rest);
      assert s[1..] == token[1..] + "/" + rest;
      assert token == [token[0]] + token[1..];
    }
  }

  function EscapedTokens(tokens: seq<string>): seq<string> {
    if tokens == [] then [] else [Escape(tokens[0])] + EscapedTokens(tokens[1..])
  }

  lemma Regroup(a: string, b: string, c: string, d: string)
    ensures a + b + c + d == a + (b + c + d)
  {
  }

  lemma {:induction false} FormatFront(tokens: seq<string>)
    requires tokens != []
    ensures Format(tokens) == "/" + Escape(tokens[0]) + Format(tokens[1..])
  {
    if |tokens| > 1 {
      var init, rest, last := tokens[..|tokens| - 1], tokens[1..], Escape(tokens[|tokens| - 1]);
      FormatFront(init);
      assert init[1..] == rest[..|rest| - 1];
      assert Format(rest) == Format(init[1..]) + "/" + last;
      Regroup("/" + Escape(tokens[0]), Format(init[1..]), "/", last);
    } else {
      assert tokens[..0] == [];
    }
  }

  lemma BehindSlash(first: string, rest: string)
    requires rest != "" && rest[0] == '/'
    ensures ("/" + first + rest)[1..] == first + "/" + rest[1..]
  {
    assert rest == "/" + rest[1..];
  }

  lemma {:induction false} SplitFormat(tokens: seq<string>)
    requires tokens != []
    ensures Format(tokens) != "" && Format(tokens)[0] == '/'
    ensures SplitAtSlashes(Format(tokens)[1..]) == EscapedTokens(tokens)
  {
    var first, rest := Escape(tokens[0]), tokens[1..];
    FormatFront(tokens);
    EscapedIsClean(tokens[0]);
    if rest == [] {
      assert Format(tokens)[1..] == first;
      SplitToken(first, "");
    } else {
      SplitFormat(rest);
      BehindSlash(first, Format(rest));
      SplitToken(first, Format(rest)[1..]);
    }
  }

  lemma {:induction false} UnescapeTokens(tokens: seq<string>)
    ensures UnescapeAll(EscapedTokens(tokens)) == Ok(tokens)
  {
    if tokens != [] {
      EscapedIsClean(tokens[0]);
      UnescapeUndoesEscape(tokens[0]);
      UnescapeTokens(tokens[1..]);
      assert EscapedTokens(tokens)[1..] == EscapedTokens(tokens[1..]);
      assert tokens == [tokens[0]] + tokens[1..];
    }
  }

  /** Formatting loses nothing: the pointer parses back to its tokens, whatever characters they hold. */
  lemma ParseFormat(tokens: seq<string>)
    ensures Parse(Format(tokens)) == Ok(tokens)
  {
    if tokens != [] {
      SplitFormat(tokens);
      UnescapeTokens(tokens);
    }
  }

  /// Formatting what was parsed

  lemma TailIsWellEscaped(s: string, k: nat)
    requires WellEscaped(s) && k <= |s|
    ensures WellEscaped(s[k..])
  {
    forall i | 0 <= i < |s[k..]| && s[k..][i] == '~'
      ensures i + 1 < |s[k..]| && (s[k..][i + 1] == '0' || s[k..][i + 1] == '1')
    {
      assert s[k + i] == '~';
    }
  }

  lemma UnescapeEscaped(s: string)
    requires |s| >= 2 && s[0] == '~' && (s[1] == '0' || s[1] == '1')
    ensures Unescape(s) == [if s[1] == '0' then '~' else '/'] + Unescape(s[2..])
  {
    var rest := ReplaceAll(s[2..], "~1", "/");
    if s[1] == '1' {
      assert s[..2] == "~1";
      OneChar("/" + rest, "~0", "~");
      assert ("/" + rest)[1..] == rest;
    } else {
      assert s[..2] == "~0" && s[1..][1..] == s[2..];
      OneChar(s[1..], "~1", "/");
      var once := "~" + (['0'] + rest);
      assert ReplaceAll(s, "~1", "/") == once;
      assert once[..2] == "~0" && once[2..] == rest;
    }
  }

  lemma UnescapeOther(s: string)
    requires s != "" && s[0] != '~'
    ensures Unescape(s) == [s[0]] + Unescape(s[1..])
  {
    var rest := ReplaceAll(s[1..], "~1", "/");
    OneChar(s, "~1", "/");
    OneChar([s[0]] + rest, "~0", "~");
    assert ([s[0]] + rest)[1..] == rest;
  }

  lemma {:induction false} EscapeUndoesUnescape(s: string)
    requires WellEscaped(s) && '/' !in s
    ensures Escape(Unescape(s)) == s
    decreases |s|
  {
    if s != "" {
      var k := if s[0] == '~' then 2 else 1;
      TailIsWellEscaped(s, k);
      EscapeUndoesUnescape(s[k..]);
      if s[0] == '~' {
        UnescapeEscaped(s);
        assert s == [s[0], s[1]] + s[2..];
      } else {
        UnescapeOther(s);
        assert s == [s[0]] + s[1..];
      }
      EscapeStep(Unescape(s));
      assert Unescape(s)[1..] == Unescape(s[k..]);
    }
  }

  /** Every part with a slash in front. */
  function Joined(parts: seq<string>): string {
    if parts == [] then "" else "/" + parts[0] + Joined(parts[1..])
  }

  predicate NoSlashes(parts: seq<string>) {
    forall i :: 0 <= i < |parts| ==> '/' !in parts[i]
  }

  lemma {:induction false} JoinUndoesSplit(s: string)
    ensures Joined(SplitAtSlashes(s)) == "/" + s && NoSlashes(SplitAtSlashes(s))
  {
    if s != "" {
      JoinUndoesSplit(s[1..]);
      var rest := SplitAtSlashes(s[1..]);
      if s[0] == '/' {
        assert ([""] + rest)[1..] == rest;
        assert s == "/" + s[1..];
      } else {
        var grown := [[s[0]] + rest[0]] + rest[1..];
        assert grown[1..] == rest[1..];
        GrowFirst(s, rest[0], Joined(rest[1..]));
        assert forall i :: 1 <= i < |grown| ==> grown[i] == rest[i];
      }
    }
  }

  lemma GrowFirst(s: string, first: string, rest: string)
    requires s != "" && "/" + first + rest == "/" + s[1..]
    ensures "/" + ([s[0]] + first) + rest == "/" + s
  {
    assert ("/" + first + rest)[1..] == first + rest && ("/" + s[1..])[1..] == s[1..];
    assert s == [s[0]] + (first + rest);
  }

  lemma {:induction false} FormatUnescaped(parts: seq<string>)
    requires NoSlashes(parts) && UnescapeAll(parts).Ok?
    ensures Format(UnescapeAll(parts).value) == Joined(parts)
  {
    if parts != [] {
      var tokens := UnescapeAll(parts).value;
      FormatFront(tokens);
      EscapeUndoesUnescape(parts[0]);
      assert NoSlashes(parts[1..]) by {
        assert forall i :: 0 <= i < |parts[1..]| ==> parts[1..][i] == parts[i + 1];
      }
      FormatUnescaped(parts[1..]);
      assert tokens[1..] == UnescapeAll(parts[1..]).value;
    }
  }

  /** A pointer that can be parsed is the one that its tokens are formatted to. */
  lemma FormatParse(s: string)
    requires Parse(s).Ok?
    ensures Format(Parse(s).value) == s
  {
    if s != "" {
      JoinUndoesSplit(s[1..]);
      FormatUnescaped(SplitAtSlashes(s[1..]));
      assert s == "/" + s[1..];
    }
  }

  /// Which pointers can be parsed

  lemma WellEscapedStep(c: char, s: string)
    ensures WellEscaped([c] + s) <==> WellEscaped(s) && (c == '~' ==> s != "" && (s[0] == '0' || s[0] == '1'))
  {
    var all := [c] + s;
    if WellEscaped(all) {
      TailIsWellEscaped(all, 1);
      assert all[1..] == s;
      assert c == '~' ==> all[0] == '~';
    } else {
      var i :| 0 <= i < |all| && all[i] == '~' && !(i + 1 < |all| && (all[i + 1] == '0' || all[i + 1] == '1'));
      assert i > 0 ==> s[i - 1] == '~';
    }
  }

  lemma FirstPart(s: string)
    requires s != "" && s[0] != '/'
    ensures SplitAtSlashes(s)[0] != "" && SplitAtSlashes(s)[0][0] == s[0]
  {
  }

  lemma {:induction false} PartsAreWellEscaped(s: string)
    ensures UnescapeAll(SplitAtSlashes(s)).Ok? <==> WellEscaped(s)
  {
    if s != "" {
      var rest := SplitAtSlashes(s[1..]);
      PartsAreWellEscaped(s[1..]);
      WellEscapedStep(s[0], s[1..]);
      assert s == [s[0]] + s[1..];
      if s[0] == '/' {
        assert ([""] + rest)[1..] == rest;
      } else {
        var grown := [[s[0]] + rest[0]] + rest[1..];
        assert grown[1..] == rest[1..];
        WellEscapedStep(s[0], rest[0]);
        if s[1..] != "" && s[1] != '/' {
          FirstPart(s[1..]);
        }
      }
    }
  }

  lemma {:induction false} UnescapeFails(parts: seq<string>)
    requires UnescapeAll(parts).Err?
    ensures UnescapeAll(parts) == Err(ParseError(108))
  {
    if WellEscaped(parts[0]) {
      UnescapeFails(parts[1..]);
    }
  }

  /** What can be parsed: nothing, or a slash with tildes behind it only in front of 0 or 1. */
  lemma ParseSucceeds(s: string)
    ensures Parse(s).Ok? <==> s == "" || (s[0] == '/' && WellEscaped(s))
    ensures Parse(s).Err? ==> Parse(s) == Err(ParseError(if s[0] != '/' then 107 else 108))
  {
    if s != "" && s[0] == '/' {
      PartsAreWellEscaped(s[1..]);
      WellEscapedStep(s[0], s[1..]);
      assert s == [s[0]] + s[1..];
      if UnescapeAll(SplitAtSlashes(s[1..])).Err? {
        UnescapeFails(SplitAtSlashes(s[1..]));
      }
    }
  }
}
