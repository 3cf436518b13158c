/** Button bindings: how they are written to the input plugin's configuration, and how they are read back. */
module Bindings {
  import opened Decimal

  const SDL_HAT_UP := 1
  const SDL_HAT_RIGHT := 2
  const SDL_HAT_DOWN := 4
  const SDL_HAT_LEFT := 8
  const STRING_BUF_LEN := 128

  datatype Input =
    | Nothing
    | Key(code: int)
    | MouseButton(button: int)
    | JoyButton(index: int)
    | JoyAxis(index: int, value: int)
    | JoyHat(index: int, value: int)
    | JoyBall

  /** The fields of a bind are machine integers. */
  predicate IsInput(i: Input) {
    match i
    case Key(code) => IsInt(code)
    case MouseButton(button) => 0 <= button < 0x1_0000_0000
    case JoyButton(index) => IsInt(index)
    case JoyAxis(index, value) => IsInt(index) && IsInt(value)
    case JoyHat(index, value) => IsInt(index) && IsInt(value)
    case _ => true
  }

  datatype Error = BadNumber | NumberOutOfRange | BadDirection | NoSuchEntry | UndefinedAccess
  datatype Result<+T> = Ok(value: T) | Err(error: Error)

  /// The arguments between the parentheses

  predicate IsBlank(c: char) {
    c == ',' || c == ' '
  }

  predicate IsSeparator(c: char) {
    IsBlank(c) || c == ')'
  }

  function FindOpening(s: string): (i: nat)
    ensures i <= |s| && (forall j :: 0 <= j < i ==> s[j] != '(') && (i < |s| ==> s[i] == '(')
  {
    if s == "" || s[0] == '(' then 0 else 1 + FindOpening(s[1..])
  }

  function SkipBlanks(s: string): (i: nat)
    ensures i <= |s| && (forall j :: 0 <= j < i ==> IsBlank(s[j])) && (i < |s| ==> !IsBlank(s[i]))
  {
    if s == "" || !IsBlank(s[0]) then 0 else 1 + SkipBlanks(s[1..])
  }

  function FindSeparator(s: string): (i: nat)
    ensures i <= |s| && (forall j :: 0 <= j < i ==> !IsSeparator(s[j])) && (i < |s| ==> IsSeparator(s[i]))
  {
    if s == "" || IsSeparator(s[0]) then 0 else 1 + FindSeparator(s[1..])
  }

  /** Words between blanks, each with a separator behind it; a closing parenthesis ends them. */
  function Split(s: string): seq<string>
    decreases |s|
  {
    var word := s[SkipBlanks(s)..];
    var end := FindSeparator(word);
    if end == |word| || end == 0 then [] else [word[..end]] + Split(word[end..])
  }

  /** Without an opening parenthesis "not found" plus one is zero. */
  function ArgsStart(s: string): (i: nat)
    ensures i <= |s|
  {
    if FindOpening(s) == |s| then 0 else FindOpening(s) + 1
  }

  function Args(s: string): seq<string> {
    Split(s[ArgsStart(s)..])
  }

  method GetArgs(str: string) returns (args: seq<string>)
    requires str != ""
    ensures args == Args(str)
  {
    args := [];
    var begin := ArgsStart(str);
    if begin == |str| - 1 {
      OneCharacter(str[begin..]);
      return;
    }
    args := Collect(str[begin..]);
  }

  method Collect(str: string) returns (args: seq<string>)
    ensures args == Split(str)
  {
    args := [];
    var rest := str;
    ghost var all := Split(str);
    assert args + all == all;
    while rest != ""
      invariant args + Split(rest) == all
      decreases |rest|
    {
      var arg, after := NextArg(rest);
      if arg == "" {
        return;
      }
      Associate(args, arg, Split(after));
      args, rest := args + [arg], after;
    }
    SplitEmpty();
    assert args + [] == args;
  }

  /** The first word and what follows it, from its separator on; no word at the end of the arguments. */
  method NextArg(str: string) returns (arg: string, rest: string)
    ensures if arg == "" then Split(str) == [] else Split(str) == [arg] + Split(rest) && |rest| < |str|
  {
    var argBegin := SkipBlanks(str);
    if argBegin == |str| {
      return "", "";
    }
    var word := str[argBegin..];
    var argEnd := FindSeparator(word);
    if argEnd == |word| || argEnd == 0 {
      return "", "";
    }
    return word[..argEnd], word[argEnd..];
  }

  lemma Associate(args: seq<string>, arg: string, more: seq<string>)
    ensures args + ([arg] + more) == args + [arg] + more
  {
  }

  lemma SplitEmpty()
    ensures Split("") == []
  {
  }

  lemma OneCharacter(s: string)
    requires |s| == 1
    ensures Split(s) == []
  {
  }

  /// Reading

  predicate Contains(s: string, pattern: string) {
    pattern <= s || (s != "" && Contains(s[1..], pattern))
  }

  function ParseInt(s: string): Result<int> {
    match Stoi(s)
    case Number(v, _) => Ok(v)
    case InvalidArgument => Err(BadNumber)
    case OutOfRange => Err(NumberOutOfRange)
  }

  function ParseKey(s: string): Result<Input> {
    var n := ParseInt(s);
    if n.Err? then Err(n.error) else Ok(Key(n.value))
  }

  function ParseButton(s: string): Result<Input> {
    var n := ParseInt(s);
    if n.Err? then Err(n.error) else Ok(JoyButton(n.value))
  }

  function ParseAxis(s: string): Result<Input>
    requires s != ""
  {
    var n := ParseInt(s);
    if n.Err? then Err(n.error) else Ok(JoyAxis(n.value, if s[|s| - 1] == '+' then 1 else -1))
  }

  function ParseDirection(s: string): Result<int> {
    if s == "Up" then Ok(SDL_HAT_UP)
    else if s == "Down" then Ok(SDL_HAT_DOWN)
    else if s == "Left" then Ok(SDL_HAT_LEFT)
    else if s == "Right" then Ok(SDL_HAT_RIGHT)
    else Err(BadDirection)
  }

  /** An index, a direction, and perhaps a direction for the second input. */
  function ParseHat(args: seq<string>): Result<(Input, Input)>
    requires args != []
  {
    var n := ParseInt(args[0]);
    if n.Err? then Err(n.error)
    else if |args| == 1 then Err(UndefinedAccess)
    else
      var first := ParseDirection(args[1]);
      if first.Err? then Err(first.error)
      else if |args| == 2 then Ok((JoyHat(n.value, first.value), Nothing))
      else
        var second := ParseDirection(args[2]);
        if second.Err? then Err(second.error)
        else Ok((JoyHat(n.value, first.value), JoyHat(n.value, second.value)))
  }

  function ParseMouse(s: string): Result<Input> {
    match Stoul(s)
    case Number(v, _) => Ok(MouseButton(v % 0x1_0000_0000))
    case InvalidArgument => Err(BadNumber)
    case OutOfRange => Err(NumberOutOfRange)
  }

  function Both(first: Result<Input>, second: Result<Input>): Result<(Input, Input)> {
    if first.Err? then Err(first.error)
    else if second.Err? then Err(second.error)
    else Ok((first.value, second.value))
  }

  datatype Kind = KeyKind | ButtonKind | AxisKind | HatKind | MouseKind | NoKind

  /** The first kind whose name is found anywhere in the string. */
  function KindOf(s: string): Kind {
    if Contains(s, "key(") then KeyKind
    else if Contains(s, "button(") then ButtonKind
    else if Contains(s, "axis(") then AxisKind
    else if Contains(s, "hat(") then HatKind
    else if Contains(s, "mouse(") then MouseKind
    else NoKind
  }

  function ParseArgs(kind: Kind, args: seq<string>): Result<(Input, Input)>
    requires args != [] && args[0] != "" && (|args| > 1 ==> args[1] != "")
  {
    match kind
    case KeyKind => Both(ParseKey(args[0]), if |args| > 1 then ParseKey(args[1]) else Ok(Nothing))
    case ButtonKind => Both(ParseButton(args[0]), if |args| > 1 then ParseButton(args[1]) else Ok(Nothing))
    case AxisKind => Both(ParseAxis(args[0]), if |args| > 1 then ParseAxis(args[1]) else Ok(Nothing))
    case HatKind => ParseHat(args)
    case MouseKind => Both(ParseMouse(args[0]), Ok(Nothing))
    case NoKind => Ok((Nothing, Nothing))
  }

  /** The two inputs of a configuration string. */
  function Parse(s: string): Result<(Input, Input)> {
    var args := Args(s);
    ArgsAreWords(s);
    if s == "" || args == [] then Ok((Nothing, Nothing)) else ParseArgs(KindOf(s), args)
  }

  lemma ArgsAreWords(s: string)
    ensures forall k :: 0 <= k < |Args(s)| ==> Args(s)[k] != ""
  {
    SplitIntoWords(s[ArgsStart(s)..]);
  }

  lemma {:induction false} SplitIntoWords(s: string)
    ensures forall k :: 0 <= k < |Split(s)| ==> Split(s)[k] != ""
    decreases |s|
  {
    var word := s[SkipBlanks(s)..];
    var end := FindSeparator(word);
    if end != |word| && end != 0 {
      SplitIntoWords(word[end..]);
    }
  }

  /// The configuration

  datatype N64Button =
    | A | B | Z | L | R | Start | DUp | DDown | DLeft | DRight | CUp | CDown | CLeft | CRight
    | AnalogUp | AnalogDown | AnalogLeft | AnalogRight

  /** Opposite stick directions share one entry. */
  function EntryName(b: N64Button): string {
    match b
    case A => "A Button"
    case B => "B Button"
    case Z => "Z Trig"
    case L => "L Trig"
    case R => "R Trig"
    case Start => "Start"
    case DUp => "DPad U"
    case DDown => "DPad D"
    case DLeft => "DPad L"
    case DRight => "DPad R"
    case CUp => "C Button U"
    case CDown => "C Button D"
    case CLeft => "C Button L"
    case CRight => "C Button R"
    case AnalogUp => "Y Axis"
    case AnalogDown => "Y Axis"
    case AnalogLeft => "X Axis"
    case AnalogRight => "X Axis"
  }

  predicate IsStick(b: N64Button) {
    b.AnalogUp? || b.AnalogDown? || b.AnalogLeft? || b.AnalogRight?
  }

  /** The directions in second place of their entry. */
  predicate IsSecond(b: N64Button) {
    b.AnalogDown? || b.AnalogRight?
  }

  function Opposite(b: N64Button): N64Button
    requires IsStick(b)
  {
    match b
    case AnalogUp => AnalogDown
    case AnalogDown => AnalogUp
    case AnalogLeft => AnalogRight
    case AnalogRight => AnalogLeft
  }

  type Config = map<string, string>

  function Zeros(n: nat): string {
    seq(n, _ => '\0')
  }

  /** A string comes back in a buffer of fixed length, with zeros behind it. */
  function Padded(s: string): string {
    if |s| < STRING_BUF_LEN then s + Zeros(STRING_BUF_LEN - |s|) else s[..STRING_BUF_LEN - 1] + Zeros(1)
  }

  /** The buffer always ends in a zero: the first 127 characters are kept, and behind the string there are zeros. */
  lemma PaddedFillsBuffer(s: string)
    ensures |Padded(s)| == STRING_BUF_LEN
    ensures forall i :: 0 <= i < STRING_BUF_LEN ==>
              Padded(s)[i] == if i < |s| && i < STRING_BUF_LEN - 1 then s[i] else '\0'
  {
  }

  function ReadEntry(c: Config, name: string): Result<(Input, Input)> {
    if name !in c then Err(NoSuchEntry) else Parse(Padded(c[name]))
  }

  function GetButton(c: Config, b: N64Button): Result<Input> {
    var inputs := ReadEntry(c, EntryName(b));
    if inputs.Err? then Err(inputs.error) else Ok(if IsSecond(b) then inputs.value.1 else inputs.value.0)
  }

  /// Writing

  function Name(i: Input): string {
    match i
    case Key(_) => "key"
    case MouseButton(_) => "mouse"
    case JoyButton(_) => "button"
    case JoyAxis(_, _) => "axis"
    case JoyHat(_, _) => "hat"
    case _ => ""
  }

  function Show(i: Input): string {
    match i
    case Key(code) => ToString(code)
    case MouseButton(button) => ToString(button)
    case JoyButton(index) => ToString(index)
    case JoyAxis(index, value) => ToString(index) + if value < 0 then "-" else "+"
    case _ => ""
  }

  function HatDirection(value: int): Result<string> {
    if value == SDL_HAT_UP then Ok("Up")
    else if value == SDL_HAT_DOWN then Ok("Down")
    else if value == SDL_HAT_LEFT then Ok("Left")
    else if value == SDL_HAT_RIGHT then Ok("Right")
    else Err(BadDirection)
  }

  function Bracket(name: string, body: string): string {
    name + "(" + body + ")"
  }

  /** The entry for two directions, each of the kind of `kind` or not bound. */
  function PairText(kind: Input, first: Input, second: Input): string {
    Bracket(Name(kind), Show(first) + "," + Show(second))
  }

  /** With the first direction missing, the second is written in its place as well. */
  function HatPairText(first: Input, second: Input): Result<string>
    requires first.JoyHat? || second.JoyHat?
    requires first.JoyHat? || first.Nothing?
    requires second.JoyHat? || second.Nothing?
  {
    var shown := if first.Nothing? then second else first;
    var d1 := HatDirection(shown.value);
    var d2 := if second.Nothing? then Ok("") else HatDirection(second.value);
    if d1.Err? then Err(d1.error)
    else if d2.Err? then Err(d2.error)
    else
      Ok(Bracket("hat", ToString(shown.index) + " " + d1.value + if second.Nothing? then "" else " " + d2.value))
  }

  predicate SameType(i: Input, j: Input) {
    match i
    case Nothing => j.Nothing?
    case Key(_) => j.Key?
    case MouseButton(_) => j.MouseButton?
    case JoyButton(_) => j.JoyButton?
    case JoyAxis(_, _) => j.JoyAxis?
    case JoyHat(_, _) => j.JoyHat?
    case JoyBall => j.JoyBall?
  }

  /** Both directions of a stick take the same type of input; hats the same hat. */
  predicate Agree(i: Input, j: Input) {
    SameType(i, j) && (i.JoyHat? ==> i.index == j.index)
  }

  /** What to store for a button: nothing, or a string. */
  datatype Text = Keep | Store(text: string)

  function StickText(b: N64Button, input: Input, opposite: Input): Result<Text> {
    var kept := if Agree(opposite, input) then opposite else Nothing;
    var first, second := if IsSecond(b) then kept else input, if IsSecond(b) then input else kept;
    match if input.Nothing? then second else input
    case Nothing => Ok(Store(""))
    case JoyBall => Ok(Keep)
    case JoyHat(_, _) =>
      var text := HatPairText(first, second);
      if text.Err? then Err(text.error) else Ok(Store(text.value))
    case kind => Ok(Store(PairText(kind, first, second)))
  }

  function PlainText(input: Input): Result<Text> {
    match input
    case Nothing => Ok(Store(""))
    case JoyBall => Ok(Keep)
    case JoyAxis(_, _) => Ok(Store(Bracket("axis", Show(input) + ",9830")))
    case JoyHat(index, value) =>
      var direction := HatDirection(value);
      if direction.Err? then Err(direction.error)
      else Ok(Store(Bracket("hat", ToString(index) + " " + direction.value)))
    case kind => Ok(Store(Bracket(Name(kind), Show(kind))))
  }

  function SetButton(c: Config, b: N64Button, input: Input): Result<Config> {
    var opposite := if IsStick(b) then GetButton(c, Opposite(b)) else Ok(Nothing);
    if opposite.Err? then Err(opposite.error)
    else
      var text := if IsStick(b) then StickText(b, input, opposite.value) else PlainText(input);
      if text.Err? then Err(text.error)
      else if text.value.Keep? then Ok(c)
      else Ok(c[EntryName(b) := text.value.text])
  }

  /** The section of the configuration that holds the bindings. */
  class Section {
    var entries: Config

    /** What is got is something that can be read at all, and changes nothing. */
    method Get(b: N64Button) returns (r: Result<Input>)
      ensures r == GetButton(entries, b)
      ensures r.Ok? ==> IsRead(r.value) && (IsSecond(b) ==> !r.value.MouseButton?)
    {
      r := GetButton(entries, b);
      if r.Ok? {
        GotInput(entries, b);
      }
    }

    /** Throws before anything is stored, or stores one entry. */
    method Set(b: N64Button, input: Input) returns (r: Result<Text>)
      modifies this
      ensures r.Ok? <==> SetButton(old(entries), b, input).Ok?
      ensures r.Ok? ==> entries == SetButton(old(entries), b, input).value
      ensures r.Err? ==> r.error == SetButton(old(entries), b, input).error && entries == old(entries)
    {
      if IsStick(b) {
        var opposite := Get(Opposite(b));
        if opposite.Err? {
          return Err(opposite.error);
        }
        r := StickText(b, input, opposite.value);
      } else {
        r := PlainText(input);
      }
      if r.Ok? && r.value.Store? {
        entries := entries[EntryName(b) := r.value.text];
      }
    }
  }

  /// Zeros behind a string

  predicate OnlyZeros(z: string) {
    forall i :: 0 <= i < |z| ==> z[i] == '\0'
  }

  lemma OpeningIgnoresZeros(s: string, z: string)
    requires OnlyZeros(z)
    ensures FindOpening(s + z) == if FindOpening(s) == |s| then |s + z| else FindOpening(s)
  {
    var i := FindOpening(s);
    assert i < |s| ==> (s + z)[i] == '(';
  }

  lemma SeparatorIgnoresZeros(s: string, z: string)
    requires OnlyZeros(z)
    ensures FindSeparator(s + z) == if FindSeparator(s) == |s| then |s + z| else FindSeparator(s)
  {
    var i := FindSeparator(s);
    assert i < |s| ==> (s + z)[i] == s[i];
  }

  lemma BlanksIgnoreZeros(s: string, z: string)
    requires OnlyZeros(z)
    ensures SkipBlanks(s + z) == SkipBlanks(s)
  {
    var i := SkipBlanks(s);
    assert i < |s| ==> (s + z)[i] == s[i];
    assert i == |s| && z != "" ==> (s + z)[i] == z[0];
  }

  lemma {:induction false} SplitIgnoresZeros(s: string, z: string)
    requires OnlyZeros(z)
    ensures Split(s + z) == Split(s)
    decreases |s|
  {
    BlanksIgnoreZeros(s, z);
    var word := s[SkipBlanks(s)..];
    assert (s + z)[SkipBlanks(s)..] == word + z;
    SeparatorIgnoresZeros(word, z);
    var end := FindSeparator(word);
    if end < |word| && end != 0 {
      SplitIgnoresZeros(word[end..], z);
      SplitCons(s, word, end);
      SplitCons(s + z, word + z, end);
      CutBefore(word, z, end);
    }
  }

  lemma CutBefore(word: string, z: string, end: nat)
    requires end <= |word|
    ensures (word + z)[..end] == word[..end] && (word + z)[end..] == word[end..] + z
  {
  }

  lemma SplitCons(s: string, word: string, end: nat)
    requires word == s[SkipBlanks(s)..] && end == FindSeparator(word) && 0 < end < |word|
    ensures Split(s) == [word[..end]] + Split(word[end..])
  {
  }

  lemma StartIgnoresZeros(s: string, z: string)
    requires OnlyZeros(z)
    ensures ArgsStart(s + z) == ArgsStart(s)
    ensures (s + z)[ArgsStart(s)..] == s[ArgsStart(s)..] + z
  {
    OpeningIgnoresZeros(s, z);
  }

  lemma ArgsIgnoreZeros(s: string, z: string)
    requires OnlyZeros(z)
    ensures Args(s + z) == Args(s)
  {
    StartIgnoresZeros(s, z);
    SplitIgnoresZeros(s[ArgsStart(s)..], z);
  }

  lemma {:induction false} ContainsIgnoresZeros(s: string, z: string, pattern: string)
    requires OnlyZeros(z) && pattern != "" && pattern[|pattern| - 1] != '\0'
    ensures Contains(s + z, pattern) <==> Contains(s, pattern)
    decreases |s| + |z|
  {
    if pattern <= s + z {
      assert (s + z)[|pattern| - 1] == pattern[|pattern| - 1];
      assert |pattern| <= |s|;
      assert s[..|pattern|] == (s + z)[..|pattern|];
    }
    if s != "" {
      assert (s + z)[1..] == s[1..] + z;
      ContainsIgnoresZeros(s[1..], z, pattern);
    } else if z != "" {
      assert s + z == z;
      assert "" + z[1..] == z[1..];
      ContainsIgnoresZeros("", z[1..], pattern);
    }
  }

  /** The zeros in the buffer change nothing of what is read. */
  lemma ParseIgnoresZeros(s: string, z: string)
    requires OnlyZeros(z)
    ensures Parse(s + z) == Parse(s)
  {
    ArgsIgnoreZeros(s, z);
    KindIgnoresZeros(s, z);
    NoArgsOfNothing();
    ArgsAreWords(s);
    if Args(s) != [] {
      ParseWithArgs(s, Args(s));
      ParseWithArgs(s + z, Args(s));
    }
  }

  lemma KindIgnoresZeros(s: string, z: string)
    requires OnlyZeros(z)
    ensures KindOf(s + z) == KindOf(s)
  {
    ContainsIgnoresZeros(s, z, "key(");
    ContainsIgnoresZeros(s, z, "button(");
    ContainsIgnoresZeros(s, z, "axis(");
    ContainsIgnoresZeros(s, z, "hat(");
    ContainsIgnoresZeros(s, z, "mouse(");
  }

  lemma NoArgsOfNothing()
    ensures Args("") == []
  {
    assert Split("") == [];
  }

  /// Reading what was written

  /** Neither empty nor broken up by a separator or a parenthesis. */
  predicate IsWord(w: string) {
    w != "" && (forall i :: 0 <= i < |w| ==> !IsSeparator(w[i])) && NoOpening(w)
  }

  predicate NoOpening(w: string) {
    forall i :: 0 <= i < |w| ==> w[i] != '('
  }

  lemma SplitWord(w: string, rest: string)
    requires IsWord(w) && rest != "" && IsSeparator(rest[0])
    ensures Split(w + rest) == [w] + Split(rest)
  {
    var s := w + rest;
    assert s[0] == w[0] && s[|w|] == rest[0];
    assert forall i :: 0 <= i < |w| ==> s[i] == w[i];
    assert SkipBlanks(s) == 0 && s[0..] == s;
    assert FindSeparator(s) == |w|;
    assert s[..|w|] == w && s[|w|..] == rest;
  }

  lemma SplitBlank(c: char, rest: string)
    requires IsBlank(c)
    ensures Split([c] + rest) == Split(rest)
  {
    var s := [c] + rest;
    assert s[1..] == rest;
    assert s[SkipBlanks(s)..] == rest[SkipBlanks(rest)..];
  }

  lemma SplitClosing()
    ensures Split(")") == []
  {
  }

  /** The words of a list: each present one, in order. */
  function Words(first: string, second: string): seq<string> {
    (if first == "" then [] else [first]) + (if second == "" then [] else [second])
  }

  lemma SplitLast(word: string)
    requires word == "" || IsWord(word)
    ensures Split(word + ")") == Words("", word)
  {
    SplitClosing();
    if word == "" {
      assert word + ")" == ")";
    } else {
      SplitWord(word, ")");
    }
  }

  lemma SplitNext(word: string, blank: char, rest: string, words: seq<string>)
    requires IsWord(word) && IsBlank(blank) && Split(rest) == words
    ensures Split(word + ([blank] + rest)) == [word] + words
  {
    SplitBlank(blank, rest);
    SplitWord(word, [blank] + rest);
  }

  lemma SplitMaybe(word: string, blank: char, rest: string, words: seq<string>)
    requires (word == "" || IsWord(word)) && IsBlank(blank) && Split(rest) == words
    ensures Split(word + ([blank] + rest)) == if word == "" then words else [word] + words
  {
    if word == "" {
      SplitBlank(blank, rest);
      assert word + ([blank] + rest) == [blank] + rest;
    } else {
      SplitNext(word, blank, rest, words);
    }
  }

  lemma SplitPair(first: string, second: string, blank: char)
    requires (first == "" || IsWord(first)) && (second == "" || IsWord(second)) && IsBlank(blank)
    ensures Split(first + ([blank] + (second + ")"))) == Words(first, second)
  {
    SplitLast(second);
    SplitWords(first, second, blank, second + ")");
  }

  lemma SplitWords(first: string, second: string, blank: char, rest: string)
    requires (first == "" || IsWord(first)) && IsBlank(blank) && Split(rest) == Words("", second)
    ensures Split(first + ([blank] + rest)) == Words(first, second)
  {
    SplitMaybe(first, blank, rest, Words("", second));
    WordsFirst(first, second);
  }

  lemma WordsFirst(first: string, second: string)
    ensures Words(first, second) == if first == "" then Words("", second) else [first] + Words("", second)
  {
  }

  lemma ArgsOfBracket(name: string, body: string)
    requires NoOpening(name)
    ensures Args(name + "(" + body) == Split(body)
  {
    var s := name + "(" + body;
    assert s[|name|] == '(' && forall i :: 0 <= i < |name| ==> s[i] == name[i];
    assert FindOpening(s) == |name|;
    assert s[|name| + 1..] == body;
  }

  lemma {:induction false} ContainsNothing(s: string, p: string)
    requires NoOpening(s)
    ensures !Contains(s, p + "(")
  {
    assert (p + "(")[|p|] == '(';
    if s != "" {
      ContainsNothing(s[1..], p);
    }
  }

  /** The only opening parenthesis is the one behind the name. */
  lemma {:induction false} ContainsName(name: string, body: string, p: string)
    requires NoOpening(name) && NoOpening(body) && NoOpening(p)
    ensures Contains(name + "(" + body, p + "(") <==> |p| <= |name| && name[|name| - |p|..] == p
    decreases |name|
  {
    var s := name + "(" + body;
    PrefixName(name, body, p);
    if name == "" {
      assert s[1..] == body;
      ContainsNothing(body, p);
    } else {
      assert s[1..] == name[1..] + "(" + body;
      ContainsName(name[1..], body, p);
      if |p| < |name| {
        assert name[1..][|name| - 1 - |p|..] == name[|name| - |p|..];
      }
    }
  }

  lemma PrefixName(name: string, body: string, p: string)
    requires NoOpening(name) && NoOpening(body) && NoOpening(p)
    ensures p + "(" <= name + "(" + body <==> p == name
  {
    var s := name + "(" + body;
    assert s[|name|] == '(';
    if p + "(" <= s {
      assert (p + "(")[|p|] == s[|p|] == '(';
      assert forall i :: 0 <= i < |p| ==> p[i] == (p + "(")[i] == s[i];
      assert |p| == |name|;
      assert p == s[..|name|] == name;
    }
  }

  lemma BracketOpens(name: string, body: string)
    ensures Bracket(name, body) == name + "(" + (body + ")")
  {
  }

  lemma ArgsOfOne(name: string, word: string)
    requires NoOpening(name) && IsWord(word)
    ensures Args(Bracket(name, word)) == [word]
  {
    BracketOpens(name, word);
    ArgsOfBracket(name, word + ")");
    SplitLast(word);
  }

  lemma Regroup(a: string, b: string, c: string, d: string)
    ensures a + b + c + d == a + (b + (c + d))
  {
  }

  lemma ArgsOfTwo(name: string, first: string, blank: char, second: string)
    requires NoOpening(name) && (first == "" || IsWord(first)) && (second == "" || IsWord(second)) && IsBlank(blank)
    ensures Args(Bracket(name, first + [blank] + second)) == Words(first, second)
  {
    var body := first + [blank] + second;
    BracketOpens(name, body);
    ArgsOfBracket(name, body + ")");
    Regroup(first, [blank], second, ")");
    SplitPair(first, second, blank);
  }

  lemma ArgsOfThree(name: string, first: string, second: string, third: string)
    requires NoOpening(name) && IsWord(first) && IsWord(second) && IsWord(third)
    ensures Args(Bracket(name, first + [' '] + second + [' '] + third)) == [first, second, third]
  {
    var body := first + [' '] + second + [' '] + third;
    BracketOpens(name, body);
    ArgsOfBracket(name, body + ")");
    RegroupThree(first, second, third);
    SplitThree(first, second, third);
  }

  lemma RegroupThree(first: string, second: string, third: string)
    ensures first + [' '] + second + [' '] + third + ")" ==
            first + ([' '] + (second + ([' '] + (third + ")"))))
  {
    var tail := [' '] + (third + ")");
    assert first + [' '] + second + [' '] + third + ")" == first + [' '] + second + tail by {
      Regroup(first + [' '] + second, [' '], third, ")");
    }
    Regroup(first, [' '], second, tail);
  }

  lemma SplitThree(first: string, second: string, third: string)
    requires IsWord(first) && IsWord(second) && IsWord(third)
    ensures Split(first + ([' '] + (second + ([' '] + (third + ")"))))) == [first, second, third]
  {
    SplitPair(second, third, ' ');
    SplitBefore(first, second, third, second + ([' '] + (third + ")")));
  }

  lemma SplitBefore(first: string, second: string, third: string, rest: string)
    requires IsWord(first) && second != "" && third != "" && Split(rest) == Words(second, third)
    ensures Split(first + ([' '] + rest)) == [first, second, third]
  {
    SplitNext(first, ' ', rest, [second, third]);
  }

  /** No two kinds end in the same letter, so a kind is found only where it was written. */
  lemma ContainsKind(name: string, body: string, p: string)
    requires NoOpening(name) && NoOpening(body) && NoOpening(p) && name != "" && p != ""
    requires p != name ==> p[|p| - 1] != name[|name| - 1]
    ensures Contains(Bracket(name, body), p + "(") <==> p == name
  {
    BracketOpens(name, body);
    ContainsName(name, body + ")", p);
    if |p| <= |name| {
      assert name[|name| - |p|..][|p| - 1] == name[|name| - 1];
    }
  }

  function KindNamed(name: string): Kind {
    if name == "key" then KeyKind
    else if name == "button" then ButtonKind
    else if name == "axis" then AxisKind
    else if name == "hat" then HatKind
    else if name == "mouse" then MouseKind
    else NoKind
  }

  lemma WhichKind(name: string, body: string)
    requires KindNamed(name) != NoKind && NoOpening(body)
    ensures KindOf(Bracket(name, body)) == KindNamed(name)
  {
    ContainsKind(name, body, "key");
    ContainsKind(name, body, "button");
    ContainsKind(name, body, "axis");
    ContainsKind(name, body, "hat");
    ContainsKind(name, body, "mouse");
    assert "key(" == "key" + "(" && "button(" == "button" + "(" && "axis(" == "axis" + "(";
    assert "hat(" == "hat" + "(" && "mouse(" == "mouse" + "(";
  }

  /** What a bind reads as: of an axis value only the sign is kept. */
  function Normal(i: Input): Input {
    if i.JoyAxis? then JoyAxis(i.index, if i.value < 0 then -1 else 1) else i
  }

  lemma ToStringIsWord(n: int)
    ensures IsWord(ToString(n))
  {
    if n < 0 {
      assert forall i :: 1 <= i < |ToString(n)| ==> ToString(n)[i] == Digits(-n)[i - 1];
    }
  }

  lemma ParseIntShown(n: int, sign: string)
    requires IsInt(n) && (sign == "" || sign == "+" || sign == "-")
    ensures ParseInt(ToString(n) + sign) == Ok(n)
  {
    ReadPrinted(n, sign);
  }

  /** One component of an entry. */
  function ParseOne(kind: Input, s: string): Result<Input>
    requires s != ""
  {
    match kind
    case Key(_) => ParseKey(s)
    case MouseButton(_) => ParseMouse(s)
    case JoyButton(_) => ParseButton(s)
    case JoyAxis(_, _) => ParseAxis(s)
    case _ => Ok(Nothing)
  }

  /** Keys, buttons and axes can be read in both places, mouse buttons in the first only. */
  predicate IsPlain(i: Input) {
    i.Key? || i.MouseButton? || i.JoyButton? || i.JoyAxis?
  }

  lemma IndexShown(index: int)
    requires IsInt(index)
    ensures IsWord(ToString(index)) && ParseInt(ToString(index)) == Ok(index)
  {
    ToStringIsWord(index);
    ParseIntShown(index, "");
    assert ToString(index) + "" == ToString(index);
  }

  lemma ParseMouseShown(button: int)
    requires 0 <= button < 0x1_0000_0000
    ensures IsWord(ToString(button)) && ParseMouse(ToString(button)) == Ok(MouseButton(button))
  {
    ToStringIsWord(button);
    ReadPrinted(button, "");
    assert ToString(button) + "" == ToString(button);
  }

  lemma ParseShown(i: Input)
    requires IsInput(i) && IsPlain(i)
    ensures IsWord(Show(i)) && ParseOne(i, Show(i)) == Ok(Normal(i))
  {
    match i
    case Key(code) => IndexShown(code);
    case MouseButton(button) => ParseMouseShown(button);
    case JoyButton(index) => IndexShown(index);
    case JoyAxis(index, value) => AxisShown(index, value);
  }

  lemma AxisShown(index: int, value: int)
    requires IsInt(index)
    ensures
      var shown := ToString(index) + if value < 0 then "-" else "+";
      IsWord(shown) && ParseAxis(shown) == Ok(JoyAxis(index, if value < 0 then -1 else 1))
  {
    ToStringIsWord(index);
    ParseIntShown(index, if value < 0 then "-" else "+");
  }

  lemma ParsePlain(kind: Input, body: string, args: seq<string>)
    requires IsPlain(kind) && NoOpening(body) && args != [] && Args(Bracket(Name(kind), body)) == args
    ensures forall k :: 0 <= k < |args| ==> args[k] != ""
    ensures Parse(Bracket(Name(kind), body)) ==
            Both(ParseOne(kind, args[0]),
                 if |args| > 1 && !kind.MouseButton? then ParseOne(kind, args[1]) else Ok(Nothing))
  {
    var s := Bracket(Name(kind), body);
    ArgsAreWords(s);
    WhichKind(Name(kind), body);
    ParseWithArgs(s, args);
    ParseArgsPlain(kind, args);
  }

  lemma ParseWithArgs(s: string, args: seq<string>)
    requires s != "" && args != [] && Args(s) == args
    requires forall k :: 0 <= k < |args| ==> args[k] != ""
    ensures Parse(s) == ParseArgs(KindOf(s), args)
  {
  }

  lemma ParseArgsPlain(kind: Input, args: seq<string>)
    requires IsPlain(kind) && args != [] && forall k :: 0 <= k < |args| ==> args[k] != ""
    ensures ParseArgs(KindNamed(Name(kind)), args) ==
            Both(ParseOne(kind, args[0]),
                 if |args| > 1 && !kind.MouseButton? then ParseOne(kind, args[1]) else Ok(Nothing))
  {
  }

  lemma ReadOne(i: Input)
    requires IsInput(i) && IsPlain(i)
    ensures Parse(Bracket(Name(i), Show(i))) == Ok((Normal(i), Nothing))
  {
    ParseShown(i);
    ArgsOfOne(Name(i), Show(i));
    ParsePlain(i, Show(i), [Show(i)]);
  }

  lemma NoOpeningBetween(first: string, blank: char, second: string)
    requires NoOpening(first) && NoOpening(second) && IsBlank(blank)
    ensures NoOpening(first + [blank] + second)
  {
  }

  /** Two components, at least one of them there, are read one after the other. */
  lemma ParseTwo(kind: Input, first: string, second: string)
    requires IsPlain(kind) && (first == "" || IsWord(first)) && (second == "" || IsWord(second))
    requires first != "" || second != ""
    ensures Parse(Bracket(Name(kind), first + [','] + second)) ==
            if first == "" then Both(ParseOne(kind, second), Ok(Nothing))
            else
              Both(ParseOne(kind, first),
                   if second != "" && !kind.MouseButton? then ParseOne(kind, second) else Ok(Nothing))
  {
    NoOpeningBetween(first, ',', second);
    ArgsOfTwo(Name(kind), first, ',', second);
    ParsePlain(kind, first + [','] + second, Words(first, second));
  }

  lemma ReadTrigger()
    ensures IsWord("9830") && ParseAxis("9830") == Ok(JoyAxis(9830, -1))
  {
    assert ToString(9830) == "9830" by {
      assert Digits(983) == "983" by {
        assert Digits(98) == "98" by {
          assert Digits(9) == "9";
        }
      }
    }
    IndexShown(9830);
  }

  lemma ReadAxis(i: Input)
    requires IsInput(i) && i.JoyAxis?
    ensures Parse(Bracket("axis", Show(i) + ",9830")) == Ok((Normal(i), JoyAxis(9830, -1)))
  {
    ParseShown(i);
    ReadTrigger();
    assert Show(i) + ",9830" == Show(i) + [','] + "9830";
    ParseTwo(i, Show(i), "9830");
  }

  /** `i` is not bound, or bound to an input of the kind of `kind`. */
  predicate IsOf(i: Input, kind: Input) {
    i.Nothing? || (IsInput(i) && SameType(i, kind))
  }

  /** What an entry for two directions reads as: a missing first input lets the second take its place. */
  function PairReading(first: Input, second: Input): (Input, Input) {
    if first.Nothing? then (Normal(second), Nothing)
    else (Normal(first), if second.MouseButton? then Nothing else Normal(second))
  }

  lemma ReadPair(kind: Input, first: Input, second: Input)
    requires IsPlain(kind) && IsOf(first, kind) && IsOf(second, kind) && !(first.Nothing? && second.Nothing?)
    ensures Parse(PairText(kind, first, second)) == Ok(PairReading(first, second))
  {
    ShownComponent(kind, first);
    ShownComponent(kind, second);
    assert "," == [','];
    ParseTwo(kind, Show(first), Show(second));
  }

  lemma ShownComponent(kind: Input, i: Input)
    requires IsPlain(kind) && IsOf(i, kind)
    ensures if i.Nothing? then Show(i) == "" else IsWord(Show(i)) && ParseOne(kind, Show(i)) == Ok(Normal(i))
  {
    if !i.Nothing? {
      ParseShown(i);
    }
  }

  predicate IsDirection(value: int) {
    value == SDL_HAT_UP || value == SDL_HAT_DOWN || value == SDL_HAT_LEFT || value == SDL_HAT_RIGHT
  }

  lemma ReadDirection(value: int)
    ensures HatDirection(value).Ok? <==> IsDirection(value)
    ensures IsDirection(value) ==>
              IsWord(HatDirection(value).value) && ParseDirection(HatDirection(value).value) == Ok(value)
  {
  }

  lemma ParseHatEntry(body: string, args: seq<string>)
    requires NoOpening(body) && args != [] && Args(Bracket("hat", body)) == args
    ensures Parse(Bracket("hat", body)) == ParseHat(args)
  {
    WhichKind("hat", body);
  }

  lemma ReadHat(index: int, value: int)
    requires IsInt(index) && IsDirection(value)
    ensures Parse(Bracket("hat", ToString(index) + [' '] + HatDirection(value).value)) ==
            Ok((JoyHat(index, value), Nothing))
  {
    var shown, direction := ToString(index), HatDirection(value).value;
    ReadDirection(value);
    IndexShown(index);
    NoOpeningBetween(shown, ' ', direction);
    ArgsOfTwo("hat", shown, ' ', direction);
    ParseHatEntry(shown + [' '] + direction, [shown, direction]);
  }

  lemma ParseHats(index: string, first: string, second: string)
    requires IsWord(index) && IsWord(first) && IsWord(second)
    ensures Parse(Bracket("hat", index + [' '] + first + [' '] + second)) == ParseHat([index, first, second])
  {
    NoOpeningBetween(index, ' ', first);
    NoOpeningBetween(index + [' '] + first, ' ', second);
    ArgsOfThree("hat", index, first, second);
    ParseHatEntry(index + [' '] + first + [' '] + second, [index, first, second]);
  }

  lemma ReadHats(index: int, value: int, other: int)
    requires IsInt(index) && IsDirection(value) && IsDirection(other)
    ensures
      var text := ToString(index) + [' '] + HatDirection(value).value + [' '] + HatDirection(other).value;
      Parse(Bracket("hat", text)) == Ok((JoyHat(index, value), JoyHat(index, other)))
  {
    ReadDirection(value);
    ReadDirection(other);
    IndexShown(index);
    ParseHats(ToString(index), HatDirection(value).value, HatDirection(other).value);
  }

  lemma ReadHatPair(first: Input, second: Input)
    requires first.JoyHat? || second.JoyHat?
    requires (first.JoyHat? && IsInt(first.index)) || first.Nothing?
    requires (second.JoyHat? && IsInt(second.index)) || second.Nothing?
    requires first.JoyHat? && second.JoyHat? ==> first.index == second.index
    ensures
      var shown := if first.Nothing? then second else first;
      if IsDirection(shown.value) && (second.JoyHat? ==> IsDirection(second.value)) then
        && HatPairText(first, second).Ok?
        && Parse(HatPairText(first, second).value) == Ok((shown, second))
      else HatPairText(first, second) == Err(BadDirection)
  {
    var shown := if first.Nothing? then second else first;
    ReadDirection(shown.value);
    if second.JoyHat? {
      ReadDirection(second.value);
    }
    if IsDirection(shown.value) && (second.JoyHat? ==> IsDirection(second.value)) {
      HatPairIs(first, second);
      if second.Nothing? {
        ReadHat(shown.index, shown.value);
      } else {
        ReadHats(shown.index, shown.value, second.value);
      }
    }
  }

  lemma HatPairIs(first: Input, second: Input)
    requires first.JoyHat? || second.JoyHat?
    requires (first.JoyHat? || first.Nothing?) && (second.JoyHat? || second.Nothing?)
    requires HatDirection((if first.Nothing? then second else first).value).Ok?
    requires second.JoyHat? ==> HatDirection(second.value).Ok?
    ensures
      var shown := if first.Nothing? then second else first;
      var text := ToString(shown.index) + [' '] + HatDirection(shown.value).value;
      HatPairText(first, second) ==
      Ok(Bracket("hat", if second.Nothing? then text else text + [' '] + HatDirection(second.value).value))
  {
    var shown := if first.Nothing? then second else first;
    var text := ToString(shown.index) + [' '] + HatDirection(shown.value).value;
    assert " " == [' '];
    if second.Nothing? {
      assert text + "" == text;
    } else {
      var d := HatDirection(second.value).value;
      assert text + (" " + d) == text + [' '] + d;
    }
  }

  /// Set, then get

  /** The longest entries fit into the buffer, so that they come back whole. */
  predicate Short(s: string) {
    |s| < STRING_BUF_LEN
  }

  function PowerOfTen(k: nat): (r: nat)
    ensures r > 0
  {
    if k == 0 then 1 else 10 * PowerOfTen(k - 1)
  }

  lemma {:induction false} DigitsLength(n: nat, k: nat)
    requires k > 0 && n < PowerOfTen(k)
    ensures |Digits(n)| <= k
  {
    if k == 1 {
      assert PowerOfTen(0) == 1;
    } else if n >= 10 {
      DigitsLength(n / 10, k - 1);
    }
  }

  lemma ToStringLength(n: int)
    requires -0x1_0000_0000 < n < 0x1_0000_0000
    ensures |ToString(n)| <= 11
  {
    var ten := 10;
    assert PowerOfTen(ten) == 1_00_0000_0000 by {
      assert PowerOfTen(4) == 1_0000;
      assert PowerOfTen(8) == 1_0000_0000;
    }
    DigitsLength(if n < 0 then -n else n, ten);
  }

  lemma StoredReads(c: Config, b: N64Button, d: N64Button, text: string)
    requires Short(text) && EntryName(d) == EntryName(b) && Parse(text).Ok?
    ensures GetButton(c[EntryName(b) := text], d) ==
            Ok(if IsSecond(d) then Parse(text).value.1 else Parse(text).value.0)
  {
    StoredEntry(c, EntryName(b), text);
  }

  lemma StoredEntry(c: Config, name: string, text: string)
    requires Short(text)
    ensures ReadEntry(c[name := text], name) == Parse(text)
  {
    ParsePadded(text);
  }

  lemma ParsePadded(text: string)
    requires Short(text)
    ensures Parse(Padded(text)) == Parse(text)
  {
    var zeros := Zeros(STRING_BUF_LEN - |text|);
    assert Padded(text) == text + zeros;
    ParseIgnoresZeros(text, zeros);
  }

  /** What can be read: no ball, an axis with its sign only, a hat with a direction. */
  predicate IsRead(i: Input) {
    IsInput(i) && !i.JoyBall? && Normal(i) == i && (i.JoyHat? ==> IsDirection(i.value))
  }

  lemma ParsedOne(s: string)
    requires s != ""
    ensures ParseKey(s).Ok? ==> IsRead(ParseKey(s).value) && ParseKey(s).value.Key?
    ensures ParseButton(s).Ok? ==> IsRead(ParseButton(s).value) && ParseButton(s).value.JoyButton?
    ensures ParseAxis(s).Ok? ==> IsRead(ParseAxis(s).value) && ParseAxis(s).value.JoyAxis?
    ensures ParseMouse(s).Ok? ==> IsRead(ParseMouse(s).value)
  {
  }

  lemma ParsedHats(args: seq<string>)
    requires args != [] && ParseHat(args).Ok?
    ensures IsRead(ParseHat(args).value.0) && IsRead(ParseHat(args).value.1) && !ParseHat(args).value.1.MouseButton?
  {
  }

  lemma ParsedArgs(kind: Kind, args: seq<string>)
    requires args != [] && args[0] != "" && (|args| > 1 ==> args[1] != "") && ParseArgs(kind, args).Ok?
    ensures IsRead(ParseArgs(kind, args).value.0) && IsRead(ParseArgs(kind, args).value.1)
    ensures !ParseArgs(kind, args).value.1.MouseButton?
  {
    ParsedOne(args[0]);
    if |args| > 1 {
      ParsedOne(args[1]);
    }
    if kind.HatKind? {
      ParsedHats(args);
    }
  }

  lemma ParsedInputs(s: string)
    requires Parse(s).Ok?
    ensures IsRead(Parse(s).value.0) && IsRead(Parse(s).value.1) && !Parse(s).value.1.MouseButton?
  {
    var args := Args(s);
    ArgsAreWords(s);
    if s != "" && args != [] {
      ParsedArgs(KindOf(s), args);
    }
  }

  lemma GotInput(c: Config, b: N64Button)
    requires GetButton(c, b).Ok?
    ensures IsRead(GetButton(c, b).value) && (IsSecond(b) ==> !GetButton(c, b).value.MouseButton?)
  {
    ParsedInputs(Padded(c[EntryName(b)]));
    assert ReadEntry(c, EntryName(b)) == Parse(Padded(c[EntryName(b)]));
  }

  lemma ShowLength(i: Input)
    requires IsInput(i)
    ensures |Show(i)| <= 12 && |Name(i)| <= 6
  {
    match i
    case Key(code) => ToStringLength(code);
    case MouseButton(button) => ToStringLength(button);
    case JoyButton(index) => ToStringLength(index);
    case JoyAxis(index, _) => ToStringLength(index);
    case _ =>
  }

  lemma HatLength(first: Input, second: Input)
    requires first.JoyHat? || second.JoyHat?
    requires (first.JoyHat? && IsInt(first.index)) || first.Nothing?
    requires (second.JoyHat? && IsInt(second.index)) || second.Nothing?
    requires HatPairText(first, second).Ok?
    ensures Short(HatPairText(first, second).value)
  {
    ToStringLength(if first.Nothing? then second.index else first.index);
  }

  lemma ParseEmpty()
    ensures Parse("") == Ok((Nothing, Nothing))
  {
  }

  /** Both places of the entry after a stick direction has been set. */
  function StickReading(b: N64Button, input: Input, opposite: Input): (Input, Input) {
    var kept := if Agree(opposite, input) then opposite else Nothing;
    var first, second := if IsSecond(b) then kept else input, if IsSecond(b) then input else kept;
    if input.JoyHat? then (if first.Nothing? then second else first, second) else PairReading(first, second)
  }

  lemma StickTextReads(b: N64Button, input: Input, opposite: Input)
    requires IsInput(input) && IsRead(opposite)
    ensures StickText(b, input, opposite).Err? <==> input.JoyHat? && !IsDirection(input.value)
    ensures StickText(b, input, opposite) == Ok(Keep) <==> input.JoyBall?
    ensures StickText(b, input, opposite).Ok? && !input.JoyBall? ==>
              var text := StickText(b, input, opposite).value.text;
              Short(text) && Parse(text) == Ok(StickReading(b, input, opposite))
  {
    var kept := if Agree(opposite, input) then opposite else Nothing;
    var first, second := if IsSecond(b) then kept else input, if IsSecond(b) then input else kept;
    if input.Nothing? {
      ParseEmpty();
    } else if input.JoyHat? {
      ReadHatPair(first, second);
      if HatPairText(first, second).Ok? {
        HatLength(first, second);
      }
    } else if !input.JoyBall? {
      ReadPair(input, first, second);
      PairLength(input, first, second);
    }
  }

  lemma PairLength(kind: Input, first: Input, second: Input)
    requires IsInput(kind) && IsInput(first) && IsInput(second)
    ensures Short(PairText(kind, first, second))
  {
    ShowLength(first);
    ShowLength(second);
    ShowLength(kind);
  }

  lemma PlainTextReads(input: Input)
    requires IsInput(input)
    ensures PlainText(input).Err? <==> input.JoyHat? && !IsDirection(input.value)
    ensures PlainText(input) == Ok(Keep) <==> input.JoyBall?
    ensures PlainText(input).Ok? && !input.JoyBall? ==>
              var text := PlainText(input).value.text;
              Short(text) && Parse(text).Ok? && Parse(text).value.0 == Normal(input)
  {
    ShowLength(input);
    match input
    case Nothing => ParseEmpty();
    case JoyHat(index, value) =>
      ReadDirection(value);
      ToStringLength(index);
      assert " " == [' '];
      if IsDirection(value) {
        ReadHat(index, value);
      }
    case JoyAxis(_, _) => ReadAxis(input);
    case JoyBall =>
    case _ => ReadOne(input);
  }

  lemma SetSucceeds(c: Config, b: N64Button, input: Input)
    requires IsInput(input)
    ensures SetButton(c, b, input).Ok? <==>
            (IsStick(b) ==> GetButton(c, Opposite(b)).Ok?) && (input.JoyHat? ==> IsDirection(input.value))
  {
    if !IsStick(b) {
      PlainTextReads(input);
    } else if GetButton(c, Opposite(b)).Ok? {
      GotInput(c, Opposite(b));
      StickTextReads(b, input, GetButton(c, Opposite(b)).value);
    }
  }

  /**
    A bind that has been set is what one gets, an axis value reduced to its sign. For the directions in second place
    that is so just for "no bind", for a hat, and for a key, button or axis when the opposite direction has one too.
  */
  lemma SetThenGet(c: Config, b: N64Button, input: Input)
    requires IsInput(input) && SetButton(c, b, input).Ok?
    ensures GetButton(SetButton(c, b, input).value, b) == Ok(Normal(input)) <==>
            && !input.JoyBall?
            && (IsSecond(b) ==>
                  || input.Nothing? || input.JoyHat?
                  || (!input.MouseButton? && SameType(GetButton(c, Opposite(b)).value, input)))
  {
    if input.JoyBall? {
      JoyBallIsNotSet(c, b);
      JoyBallIsNotGot(c, b);
    } else if IsStick(b) {
      StickThenGet(c, b, input);
    } else {
      PlainThenGet(c, b, input);
    }
  }

  lemma PlainThenGet(c: Config, b: N64Button, input: Input)
    requires IsInput(input) && !input.JoyBall? && !IsStick(b) && SetButton(c, b, input).Ok?
    ensures GetButton(SetButton(c, b, input).value, b) == Ok(Normal(input))
  {
    PlainTextReads(input);
    StoredReads(c, b, b, PlainText(input).value.text);
  }

  lemma StickThenGet(c: Config, b: N64Button, input: Input)
    requires IsInput(input) && !input.JoyBall? && IsStick(b) && SetButton(c, b, input).Ok?
    ensures GetButton(c, Opposite(b)).Ok?
    ensures GetButton(SetButton(c, b, input).value, b) == Ok(Normal(input)) <==>
            (IsSecond(b) ==>
               || input.Nothing? || input.JoyHat?
               || (!input.MouseButton? && SameType(GetButton(c, Opposite(b)).value, input)))
  {
    SetStores(c, b, input);
    var opposite := GetButton(c, Opposite(b)).value;
    GotInput(c, Opposite(b));
    StickTextReads(b, input, opposite);
    OwnReading(b, input, opposite);
    StoredReads(c, b, b, StickText(b, input, opposite).value.text);
  }

  lemma OwnReading(b: N64Button, input: Input, was: Input)
    requires IsStick(b) && !input.JoyBall? && IsRead(was)
    ensures
      var inputs := StickReading(b, input, was);
      (if IsSecond(b) then inputs.1 else inputs.0) == Normal(input) <==>
      (IsSecond(b) ==> input.Nothing? || input.JoyHat? || (!input.MouseButton? && SameType(was, input)))
  {
  }

  lemma SetStores(c: Config, b: N64Button, input: Input)
    requires IsStick(b) && SetButton(c, b, input).Ok?
    ensures GetButton(c, Opposite(b)).Ok?
    ensures
      var text := StickText(b, input, GetButton(c, Opposite(b)).value);
      && text.Ok?
      && SetButton(c, b, input).value == if text.value.Keep? then c else c[EntryName(b) := text.value.text]
  {
  }

  lemma JoyBallIsNotSet(c: Config, b: N64Button)
    requires SetButton(c, b, JoyBall).Ok?
    ensures SetButton(c, b, JoyBall).value == c
  {
    if IsStick(b) {
      SetStores(c, b, JoyBall);
      GotInput(c, Opposite(b));
      StickTextReads(b, JoyBall, GetButton(c, Opposite(b)).value);
    }
  }

  lemma JoyBallIsNotGot(c: Config, b: N64Button)
    ensures GetButton(c, b) != Ok(JoyBall)
  {
    if GetButton(c, b).Ok? {
      GotInput(c, b);
    }
  }

  /** A key set for the right while the left has none is written as "key(,5)", and read as the key of the left. */
  lemma LoneKeyIsMisread()
    ensures
      var c := map["X Axis" := ""];
      && SetButton(c, AnalogRight, Key(5)).Ok?
      && GetButton(SetButton(c, AnalogRight, Key(5)).value, AnalogRight) != Ok(Key(5))
      && GetButton(SetButton(c, AnalogRight, Key(5)).value, AnalogLeft) == Ok(Key(5))
  {
    ParseEmpty();
    var none: Config := map[];
    StoredReads(none, AnalogLeft, AnalogLeft, "");
    var c := none["X Axis" := ""];
    assert c == map["X Axis" := ""];
    SetSucceeds(c, AnalogRight, Key(5));
    SetThenGet(c, AnalogRight, Key(5));
    OppositeAfterSet(c, AnalogRight, Key(5));
  }

  lemma OppositeShares(b: N64Button)
    requires IsStick(b)
    ensures EntryName(Opposite(b)) == EntryName(b) && (IsSecond(Opposite(b)) <==> !IsSecond(b))
  {
  }

  lemma OppositeReading(b: N64Button, input: Input, was: Input)
    requires IsStick(b) && !input.JoyBall? && IsRead(was) && (IsSecond(Opposite(b)) ==> !was.MouseButton?)
    ensures
      var inputs := StickReading(b, input, was);
      (if IsSecond(Opposite(b)) then inputs.1 else inputs.0) ==
      if Agree(was, input) then was else if IsSecond(b) then Normal(input) else Nothing
  {
  }

  /**
    The opposite direction keeps its bind just when the two agree; else the direction in second place loses its bind,
    and the one in first place takes over what was set.
  */
  lemma OppositeAfterSet(c: Config, b: N64Button, input: Input)
    requires IsStick(b) && IsInput(input) && SetButton(c, b, input).Ok?
    ensures
      var was := GetButton(c, Opposite(b)).value;
      GetButton(SetButton(c, b, input).value, Opposite(b)) ==
      Ok(if input.JoyBall? || Agree(was, input) then was else if IsSecond(b) then Normal(input) else Nothing)
  {
    var opposite := GetButton(c, Opposite(b)).value;
    SetStores(c, b, input);
    if input.JoyBall? {
      JoyBallIsNotSet(c, b);
    } else {
      GotInput(c, Opposite(b));
      StickTextReads(b, input, opposite);
      OppositeReading(b, input, opposite);
      OppositeShares(b);
      StoredReads(c, b, Opposite(b), StickText(b, input, opposite).value.text);
    }
  }

  lemma OtherEntry(c: Config, name: string, text: string, d: N64Button)
    requires EntryName(d) != name
    ensures GetButton(c[name := text], d) == GetButton(c, d)
  {
  }

  function FirstDirection(b: N64Button): N64Button {
    if IsSecond(b) then Opposite(b) else b
  }

  function ByLastLetter(c: char, up: N64Button, down: N64Button, left: N64Button, right: N64Button): N64Button {
    if c == 'U' then up else if c == 'D' then down else if c == 'L' then left else right
  }

  /** The button that an entry is for, told from the length of its name and from two letters. */
  function ButtonNamed(name: string): N64Button
    requires name != ""
  {
    var first, last := name[0], name[|name| - 1];
    if |name| == 5 then Start
    else if |name| == 8 then if first == 'A' then A else B
    else if |name| == 10 then ByLastLetter(last, CUp, CDown, CLeft, CRight)
    else if first == 'D' then ByLastLetter(last, DUp, DDown, DLeft, DRight)
    else if first == 'Z' then Z
    else if first == 'L' then L
    else if first == 'R' then R
    else if first == 'Y' then AnalogUp
    else AnalogLeft
  }

  lemma NameTellsButton(b: N64Button)
    ensures EntryName(b) != "" && ButtonNamed(EntryName(b)) == FirstDirection(b)
  {
  }

  /** Two buttons share an entry only when they are the same or opposite directions of a stick. */
  lemma EntriesAreApart(d: N64Button, b: N64Button)
    ensures EntryName(d) == EntryName(b) <==> d == b || (IsStick(b) && d == Opposite(b))
  {
    NameTellsButton(d);
    NameTellsButton(b);
    if IsStick(b) {
      OppositeShares(b);
    }
    FirstDirections(d, b);
  }

  lemma FirstDirections(d: N64Button, b: N64Button)
    ensures FirstDirection(d) == FirstDirection(b) <==> d == b || (IsStick(b) && d == Opposite(b))
  {
  }

  /** Setting a button touches no button but itself and the opposite direction. */
  lemma SetKeepsOthers(c: Config, b: N64Button, input: Input, d: N64Button)
    requires SetButton(c, b, input).Ok? && d != b && !(IsStick(b) && d == Opposite(b))
    ensures GetButton(SetButton(c, b, input).value, d) == GetButton(c, d)
  {
    EntriesAreApart(d, b);
    var text := if IsStick(b) then StickText(b, input, GetButton(c, Opposite(b)).value) else PlainText(input);
    if text.value.Store? {
      OtherEntry(c, EntryName(b), text.value.text, d);
    }
  }
}
