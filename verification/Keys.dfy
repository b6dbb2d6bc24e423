/** Key combos: parsing, display, and the key events that play one. */
module Keys {
  import opened Wrappers
  import opened Text

  datatype Modifier = Ctrl | Shift | Alt | Super

  datatype KeyCombo = KeyCombo(modifiers: set<Modifier>, key: string)

  datatype ComboError = EmptyCombo | EmptyToken | UnknownModifier

  function ParseModifier(s: string): Option<Modifier> {
    var l := Lower(s);
    if l in {"ctrl", "control"} then Some(Ctrl)
    else if l == "shift" then Some(Shift)
    else if l in {"alt", "meta"} then Some(Alt)
    else if l in {"super", "win", "windows", "mod4", "cmd", "command"} then Some(Super)
    else None
  }

  function DisplayName(m: Modifier): string {
    match m
    case Ctrl => "ctrl"
    case Shift => "shift"
    case Alt => "alt"
    case Super => "logo"
  }

  function Keycode(m: Modifier): nat {
    match m
    case Ctrl => 29
    case Shift => 42
    case Alt => 56
    case Super => 125
  }

  /** The modifiers of a set in their fixed order. */
  function Ordered(ms: set<Modifier>): seq<Modifier> {
    (if Ctrl in ms then [Ctrl] else []) + (if Shift in ms then [Shift] else [])
    + (if Alt in ms then [Alt] else []) + (if Super in ms then [Super] else [])
  }

  function TrimAll(parts: seq<string>): (r: seq<string>)
    ensures |r| == |parts|
    ensures forall k | 0 <= k < |parts| :: r[k] == Trim(parts[k])
  {
    if parts == [] then [] else [Trim(parts[0])] + TrimAll(parts[1..])
  }

  /** The set the tokens name, or nothing if one names no modifier. */
  function ParseModifiers(tokens: seq<string>): Option<set<Modifier>> {
    if tokens == [] then Some({})
    else match (ParseModifier(tokens[0]), ParseModifiers(tokens[1..]))
      case (Some(m), Some(ms)) => Some({m} + ms)
      case _ => None
  }

  /** Tokens between `+` signs; the last one is the key. */
  function Parse(s: string): Result<KeyCombo, ComboError> {
    var trimmed := Trim(s);
    if trimmed == "" then Err(EmptyCombo)
    else
      var parts := TrimAll(Split(trimmed, '+'));
      if "" in parts then Err(EmptyToken)
      else match ParseModifiers(parts[..|parts| - 1])
        case None => Err(UnknownModifier)
        case Some(ms) => Ok(KeyCombo(ms, parts[|parts| - 1]))
  }

  function Plus(ms: set<Modifier>, more: Option<set<Modifier>>): Option<set<Modifier>> {
    if more.Some? then Some(ms + more.value) else None
  }

  method ParseTokens(tokens: seq<string>) returns (r: Option<set<Modifier>>)
    ensures r == ParseModifiers(tokens)
  {
    var ms: set<Modifier> := {};
    assert Plus(ms, ParseModifiers(tokens)) == ParseModifiers(tokens) by {
      var all := ParseModifiers(tokens);
      if all.Some? { assert {} + all.value == all.value; }
    }
    assert tokens[0..] == tokens;
    for i := 0 to |tokens|
      invariant ParseModifiers(tokens) == Plus(ms, ParseModifiers(tokens[i..]))
    {
      assert tokens[i..][1..] == tokens[i + 1..];
      match ParseModifier(tokens[i]) {
        case None => return None;
        case Some(m) =>
          var rest := ParseModifiers(tokens[i + 1..]);
          if rest.Some? { assert ms + ({m} + rest.value) == (ms + {m}) + rest.value; }
          ms := ms + {m};
      }
    }
    r := Some(ms);
    assert tokens[|tokens|..] == [] && ms + {} == ms;
  }

  function NamesThenKey(ms: seq<Modifier>, key: string): string {
    if ms == [] then key else DisplayName(ms[0]) + "+" + NamesThenKey(ms[1..], key)
  }

  function Display(c: KeyCombo): string {
    NamesThenKey(Ordered(c.modifiers), c.key)
  }

  // ---- display and parse ---------------------------------------------------------------------------

  /** What a parsed combo's key looks like. */
  predicate IsKey(key: string) {
    key != "" && '+' !in key && IsTrimmed(key)
  }

  lemma ParsedKey(s: string)
    requires Parse(s).Ok?
    ensures IsKey(Parse(s).value.key)
  {
    var pieces := Split(Trim(s), '+');
    PiecesLackSeparator(Trim(s), '+');
    var parts := TrimAll(pieces);
    assert parts[|parts| - 1] == Trim(pieces[|pieces| - 1]);
    assert parts[|parts| - 1] in parts;
  }

  function Names(ms: seq<Modifier>): (r: seq<string>)
    ensures |r| == |ms|
    ensures forall k | 0 <= k < |ms| :: r[k] == DisplayName(ms[k])
  {
    if ms == [] then [] else [DisplayName(ms[0])] + Names(ms[1..])
  }

  lemma NameShape(m: Modifier)
    ensures IsKey(DisplayName(m)) && !IsSpace(DisplayName(m)[0])
  {
  }

  lemma {:induction false} DisplaySplits(ms: seq<Modifier>, key: string)
    requires IsKey(key)
    ensures Split(NamesThenKey(ms, key), '+') == Names(ms) + [key]
    ensures IsTrimmed(NamesThenKey(ms, key)) && NamesThenKey(ms, key) != ""
  {
    if ms == [] {
      SplitWhole(key, '+');
    } else {
      DisplaySplits(ms[1..], key);
      NameShape(ms[0]);
      SplitHead(DisplayName(ms[0]), '+', NamesThenKey(ms[1..], key));
    }
  }

  lemma LowerName(m: Modifier)
    ensures Lower(DisplayName(m)) == DisplayName(m)
  {
  }

  lemma NameParses(m: Modifier)
    ensures ParseModifier(DisplayName(m)) == if m == Super then None else Some(m)
  {
    LowerName(m);
  }

  function ToSet(ms: seq<Modifier>): set<Modifier> {
    set m | m in ms
  }

  lemma {:induction false} NamesParse(ms: seq<Modifier>)
    ensures ParseModifiers(Names(ms)) == if Super in ms then None else Some(ToSet(ms))
  {
    hide ParseModifier, DisplayName;
    if ms == [] {
      assert ToSet(ms) == {};
    } else {
      NamesParse(ms[1..]);
      NameParses(ms[0]);
      assert Names(ms)[0] == DisplayName(ms[0]);
      assert Names(ms)[1..] == Names(ms[1..]);
      assert ms == [ms[0]] + ms[1..];
      assert Super in ms <==> ms[0] == Super || Super in ms[1..];
      assert ToSet(ms) == {ms[0]} + ToSet(ms[1..]);
    }
  }

  lemma OrderedIsSet(ms: set<Modifier>)
    ensures ToSet(Ordered(ms)) == ms
    ensures forall i, j | 0 <= i < j < |Ordered(ms)| :: Ordered(ms)[i] != Ordered(ms)[j]
  {
    forall m: Modifier ensures m in Ordered(ms) <==> m in ms {
      match m
      case Ctrl =>
      case Shift =>
      case Alt =>
      case Super =>
    }
  }

  /** The displayed form of any parsed combo parses back to it exactly when Super is not among its modifiers. */
  lemma DisplayRoundTrip(s: string)
    requires Parse(s).Ok?
    ensures var c := Parse(s).value;
      && (Parse(Display(c)) == Ok(c) <==> Super !in c.modifiers)
      && (Super in c.modifiers ==> Parse(Display(c)) == Err(UnknownModifier))
  {
    var c := Parse(s).value;
    ParsedKey(s);
    CanonicalParse(c);
  }

  lemma SuperPieces()
    ensures Split("super+t", '+') == ["super", "t"]
  {
    hide Split;
    assert "super+t" == "super" + ['+'] + "t";
    assert '+' !in "super" && '+' !in "t";
    SplitHead("super", '+', "t");
    SplitWhole("t", '+');
  }

  lemma SuperParsed()
    ensures Parse("super+t") == Ok(KeyCombo({Super}, "t"))
  {
    hide ParseModifiers, Trim, Split;
    SuperPieces();
    AlreadyTrimmed();
    SuperParses();
    var parts := TrimAll(["super", "t"]);
    assert parts == ["super", "t"] && "" !in parts && parts[..1] == ["super"];
  }

  lemma SuperDisplayed()
    ensures Display(KeyCombo({Super}, "t")) == "logo+t"
  {
    assert Ordered({Super}) == [Super];
    assert [Super][1..] == [];
    assert NamesThenKey([], "t") == "t";
    assert NamesThenKey([Super], "t") == "logo" + "+" + NamesThenKey([], "t");
  }

  /** `super+t` parses, and what it is displayed as does not. */
  lemma SuperNotRedisplayed()
    ensures Parse("super+t") == Ok(KeyCombo({Super}, "t"))
    ensures Display(KeyCombo({Super}, "t")) == "logo+t"
    ensures Parse("logo+t") == Err(UnknownModifier)
  {
    hide Parse, Display;
    SuperParsed();
    SuperDisplayed();
    AlreadyTrimmed();
    CanonicalParse(KeyCombo({Super}, "t"));
  }

  lemma AlreadyTrimmed()
    ensures Trim("super+t") == "super+t" && Trim("super") == "super" && Trim("t") == "t"
    ensures IsKey("t")
  {
    assert IsTrimmed("super+t") && IsTrimmed("super") && IsTrimmed("t");
  }

  lemma SuperParses()
    ensures ParseModifiers(["super"]) == Some({Super})
  {
    assert Lower("super") == "super";
    assert ["super"][1..] == [];
    assert {Super} + {} == {Super};
  }

  lemma CanonicalParse(c: KeyCombo)
    requires IsKey(c.key)
    ensures Parse(Display(c)) == if Super in c.modifiers then Err(UnknownModifier) else Ok(c)
  {
    hide ParseModifier, Lower, Trim, IsSpace, Ordered;
    var ms := Ordered(c.modifiers);
    OrderedIsSet(c.modifiers);
    DisplaySplits(ms, c.key);
    var pieces := Names(ms) + [c.key];
    forall k | 0 <= k < |pieces| ensures Trim(pieces[k]) == pieces[k] && pieces[k] != "" {
      if k < |ms| { NameShape(ms[k]); }
    }
    assert TrimAll(pieces) == pieces;
    assert pieces[..|pieces| - 1] == Names(ms);
    NamesParse(ms);
    assert Super in ms <==> Super in ToSet(ms);
  }

  // ---- the chord as key events -----------------------------------------------------------------------

  datatype KeyEvent = KeyEvent(code: nat, down: bool)

  function LetterCode(c: char): nat
    requires 'a' <= c <= 'z'
  {
    [30, 48, 46, 32, 18, 33, 34, 35, 23, 36, 37, 38, 50,
     49, 24, 25, 16, 19, 31, 20, 22, 47, 17, 45, 21, 44][c as int - 'a' as int]
  }

  const MODIFIER_CODES: set<nat> := {29, 42, 56, 125}

  /** `f1` to `f12`. */
  function FunctionKey(low: string): (r: Option<nat>)
    ensures r.Some? ==> 59 <= r.value <= 68 || r.value in {87, 88}
  {
    if |low| == 2 && low[0] == 'f' && '1' <= low[1] <= '9' then Some(58 + (low[1] as int - '0' as int))
    else if low == "f10" then Some(68)
    else if low == "f11" then Some(87)
    else if low == "f12" then Some(88)
    else None
  }

  function NamedCode(low: string): (r: Option<nat>)
    ensures r.Some? ==> r.value !in MODIFIER_CODES
  {
    if low in {"return", "enter", "kp_enter"} then Some(28)
    else if low == "space" then Some(57)
    else if low == "tab" then Some(15)
    else if low in {"escape", "esc"} then Some(1)
    else if low == "backspace" then Some(14)
    else if low in {"delete", "del"} then Some(111)
    else if low in {"insert", "ins"} then Some(110)
    else if low == "home" then Some(102)
    else if low == "end" then Some(107)
    else if low in {"page_up", "pageup", "prior"} then Some(104)
    else if low in {"page_down", "pagedown", "next"} then Some(109)
    else if low == "up" then Some(103)
    else if low == "down" then Some(108)
    else if low == "left" then Some(105)
    else if low == "right" then Some(106)
    else if low == "minus" then Some(12)
    else if low == "equal" then Some(13)
    else if low == "comma" then Some(51)
    else if low in {"period", "dot"} then Some(52)
    else if low == "slash" then Some(53)
    else if low == "semicolon" then Some(39)
    else if low == "apostrophe" then Some(40)
    else if low == "grave" then Some(41)
    else if low == "bracketleft" then Some(26)
    else if low == "bracketright" then Some(27)
    else if low == "backslash" then Some(43)
    else FunctionKey(low)
  }

  function KeysymToEvdev(key: string): Option<nat> {
    var low := Lower(key);
    if |key| == 1 && 'a' <= low[0] <= 'z' then Some(LetterCode(low[0]))
    else if key == "0" then Some(11)
    else if |key| == 1 && '1' <= key[0] <= '9' then Some(key[0] as int - '1' as int + 2)
    else NamedCode(low)
  }

  /** No key of the table is a modifier, so pressing it never disturbs the chord. */
  lemma KeyIsNoModifier(key: string)
    requires KeysymToEvdev(key).Some?
    ensures KeysymToEvdev(key).value !in MODIFIER_CODES
  {
    hide Lower, NamedCode;
  }

  method EncodeYdotoolKey(c: KeyCombo) returns (r: Option<seq<KeyEvent>>)
    ensures r == match KeysymToEvdev(c.key)
                 case None => None
                 case Some(code) => Some(Chord(Ordered(c.modifiers), code))
  {
    hide KeysymToEvdev, Ordered, Keycode;
    var found := KeysymToEvdev(c.key);
    if found.None? { return None; }
    var mods := Ordered(c.modifiers);
    var argv: seq<KeyEvent> := [];
    for i := 0 to |mods|
      invariant argv == Presses(mods[..i])
    {
      argv := argv + [KeyEvent(Keycode(mods[i]), true)];
    }
    assert mods[..|mods|] == mods;
    argv := argv + [KeyEvent(found.value, true), KeyEvent(found.value, false)];
    ghost var front := argv;
    var j := |mods|;
    while j > 0
      invariant 0 <= j <= |mods|
      invariant argv == front + Releases(mods[j..])
    {
      j := j - 1;
      assert mods[j..][1..] == mods[j + 1..];
      argv := argv + [KeyEvent(Keycode(mods[j]), false)];
    }
    assert mods[0..] == mods;
    r := Some(argv);
  }

  function Presses(ms: seq<Modifier>): seq<KeyEvent> {
    seq(|ms|, i requires 0 <= i < |ms| => KeyEvent(Keycode(ms[i]), true))
  }

  /** The releases of a run of modifiers, last one first. */
  function Releases(ms: seq<Modifier>): seq<KeyEvent> {
    if ms == [] then [] else Releases(ms[1..]) + [KeyEvent(Keycode(ms[0]), false)]
  }

  function Chord(ms: seq<Modifier>, code: nat): seq<KeyEvent> {
    Presses(ms) + [KeyEvent(code, true), KeyEvent(code, false)] + Releases(ms)
  }

  /** The keys down after the events; nothing if one presses a held key or releases a free one. */
  function Play(held: set<nat>, events: seq<KeyEvent>): Option<set<nat>>
    decreases |events|
  {
    if events == [] then Some(held)
    else
      var e := events[0];
      if e.down == (e.code in held) then None
      else Play(if e.down then held + {e.code} else held - {e.code}, events[1..])
  }

  function Codes(ms: seq<Modifier>): set<nat> {
    set m | m in ms :: Keycode(m)
  }

  predicate Distinct(ms: seq<Modifier>) {
    forall i, j | 0 <= i < j < |ms| :: ms[i] != ms[j]
  }

  lemma {:induction false} PlayThen(held: set<nat>, a: seq<KeyEvent>, b: seq<KeyEvent>)
    ensures Play(held, a + b) == match Play(held, a) case None => None case Some(h) => Play(h, b)
    decreases |a|
  {
    if a == [] {
      assert a + b == b;
    } else {
      var e := a[0];
      assert (a + b)[1..] == a[1..] + b;
      PlayThen(if e.down then held + {e.code} else held - {e.code}, a[1..], b);
    }
  }

  lemma FirstCode(ms: seq<Modifier>)
    requires ms != [] && Distinct(ms)
    ensures Codes(ms) == {Keycode(ms[0])} + Codes(ms[1..])
    ensures Keycode(ms[0]) !in Codes(ms[1..]) && Distinct(ms[1..])
  {
    assert ms == [ms[0]] + ms[1..];
    forall m | m in ms[1..] ensures Keycode(m) != Keycode(ms[0]) {
      var j :| 1 <= j < |ms| && ms[j] == m;
      assert ms[0] != ms[j];
    }
  }

  lemma {:induction false} PressesPlay(held: set<nat>, ms: seq<Modifier>)
    requires Distinct(ms) && held !! Codes(ms)
    ensures Play(held, Presses(ms)) == Some(held + Codes(ms))
    decreases |ms|
  {
    if ms == [] {
      assert held + Codes(ms) == held;
    } else {
      assert Presses(ms)[1..] == Presses(ms[1..]);
      FirstCode(ms);
      PressesPlay(held + {Keycode(ms[0])}, ms[1..]);
      assert held + {Keycode(ms[0])} + Codes(ms[1..]) == held + Codes(ms);
    }
  }

  lemma {:induction false} ReleasesPlay(held: set<nat>, ms: seq<Modifier>)
    requires Distinct(ms) && held !! Codes(ms)
    ensures Play(held + Codes(ms), Releases(ms)) == Some(held)
    decreases |ms|
  {
    if ms == [] {
      assert held + Codes(ms) == held;
    } else {
      var k := Keycode(ms[0]);
      FirstCode(ms);
      assert held + Codes(ms) == (held + {k}) + Codes(ms[1..]);
      ReleasesPlay(held + {k}, ms[1..]);
      PlayThen(held + Codes(ms), Releases(ms[1..]), [KeyEvent(k, false)]);
      assert held + {k} - {k} == held;
      assert Play(held, []) == Some(held);
      assert Play(held + {k}, [KeyEvent(k, false)]) == Play(held + {k} - {k}, [KeyEvent(k, false)][1..]);
    }
  }

  lemma KeyTap(held: set<nat>, code: nat)
    requires code !in held
    ensures Play(held, [KeyEvent(code, true), KeyEvent(code, false)]) == Some(held)
  {
    var down := [KeyEvent(code, true), KeyEvent(code, false)];
    assert down[1..] == [KeyEvent(code, false)] && down[1..][1..] == [];
    assert held + {code} - {code} == held;
    assert Play(held + {code} - {code}, []) == Some(held);
    assert Play(held + {code}, down[1..]) == Some(held);
  }

  /** Between the presses and the releases the key goes down and up once. */
  lemma KeyEventAt(ms: seq<Modifier>, code: nat, k: nat)
    requires code !in MODIFIER_CODES && k < |Chord(ms, code)| && Chord(ms, code)[k] == KeyEvent(code, true)
    ensures k == |ms| && Chord(ms, code)[..k] == Presses(ms)
  {
    ReleaseEvents(ms);
    var rest := [KeyEvent(code, true), KeyEvent(code, false)] + Releases(ms);
    assert Chord(ms, code) == Presses(ms) + rest;
  }

  lemma ChordPlays(ms: seq<Modifier>, code: nat, held: set<nat>)
    requires Distinct(ms) && held !! Codes(ms) && code !in held + Codes(ms)
    ensures Play(held, Presses(ms)) == Some(held + Codes(ms))
    ensures Play(held, Chord(ms, code)) == Some(held)
  {
    hide Play;
    var tap := [KeyEvent(code, true), KeyEvent(code, false)];
    PressesPlay(held, ms);
    KeyTap(held + Codes(ms), code);
    ReleasesPlay(held, ms);
    PlayThen(held, Presses(ms), tap);
    PlayThen(held, Presses(ms) + tap, Releases(ms));
  }

  /** The chord leaves the keyboard as it found it, and its key goes down with exactly the combo's modifiers held. */
  lemma ChordBrackets(c: KeyCombo, held: set<nat>)
    requires KeysymToEvdev(c.key).Some?
    requires held !! MODIFIER_CODES && KeysymToEvdev(c.key).value !in held
    ensures var code := KeysymToEvdev(c.key).value;
      var chord := Chord(Ordered(c.modifiers), code);
      && Play(held, chord) == Some(held)
      && KeyEvent(code, true) in chord
      && forall k | 0 <= k < |chord| && chord[k] == KeyEvent(code, true) ::
           Play(held, chord[..k]) == Some(held + set m | m in c.modifiers :: Keycode(m))
  {
    hide KeysymToEvdev, Ordered, Play;
    var code := KeysymToEvdev(c.key).value;
    KeyIsNoModifier(c.key);
    OrderedIsSet(c.modifiers);
    var ms := Ordered(c.modifiers);
    assert Codes(ms) == set m | m in c.modifiers :: Keycode(m) by {
      forall m: Modifier ensures m in ms <==> m in c.modifiers {
        assert m in ToSet(ms) <==> m in ms;
      }
    }
    ChordPlays(ms, code, held);
    var chord := Chord(ms, code);
    assert chord[|ms|] == KeyEvent(code, true);
    forall k | 0 <= k < |chord| && chord[k] == KeyEvent(code, true)
      ensures Play(held, chord[..k]) == Some(held + Codes(ms))
    {
      KeyEventAt(ms, code, k);
    }
  }

  lemma {:induction false} ReleaseEvents(ms: seq<Modifier>)
    ensures |Releases(ms)| == |ms|
    ensures forall k | 0 <= k < |ms| :: !Releases(ms)[k].down
  {
    if ms != [] { ReleaseEvents(ms[1..]); }
  }

  // ---- where the keys are ---------------------------------------------------------------------------

  /** The keys have consecutive codes. */
  predicate InOrder(names: seq<string>, first: nat) {
    forall i | 0 <= i < |names| :: KeysymToEvdev(names[i]) == Some(first + i)
  }

  predicate LettersInOrder(row: string, first: nat) {
    forall i | 0 <= i < |row| :: KeysymToEvdev([row[i]]) == Some(first + i)
  }

  lemma NamedKey(name: string)
    requires |name| > 1 && forall i | 0 <= i < |name| :: LowerChar(name[i]) == name[i]
    ensures KeysymToEvdev(name) == NamedCode(name)
  {
    assert Lower(name) == name;
  }

  lemma OneLetter(c: char)
    requires 'a' <= c <= 'z'
    ensures KeysymToEvdev([c]) == Some(LetterCode(c))
  {
  }

  lemma OneDigit(c: char)
    requires '0' <= c <= '9'
    ensures KeysymToEvdev([c]) == Some(if c == '0' then 11 else c as int - '0' as int + 1)
  {
    assert Lower([c])[0] == c;
  }

  lemma DigitRow()
    ensures LettersInOrder("1234567890", 2)
  {
    hide KeysymToEvdev;
    forall c: char | '0' <= c <= '9'
      ensures KeysymToEvdev([c]) == Some(if c == '0' then 11 else c as int - '0' as int + 1)
    {
      OneDigit(c);
    }
  }

  lemma UpperRow()
    ensures LettersInOrder("qwertyuiop", 16)
  {
    hide KeysymToEvdev;
    forall c: char | 'a' <= c <= 'z' ensures KeysymToEvdev([c]) == Some(LetterCode(c)) { OneLetter(c); }
  }

  lemma HomeRow()
    ensures LettersInOrder("asdfghjkl", 30)
  {
    hide KeysymToEvdev;
    forall c: char | 'a' <= c <= 'z' ensures KeysymToEvdev([c]) == Some(LetterCode(c)) { OneLetter(c); }
  }

  lemma LowerRow()
    ensures LettersInOrder("zxcvbnm", 44)
  {
    hide KeysymToEvdev;
    forall c: char | 'a' <= c <= 'z' ensures KeysymToEvdev([c]) == Some(LetterCode(c)) { OneLetter(c); }
  }

  lemma AfterDigits()
    ensures KeysymToEvdev("minus") == Some(12) && KeysymToEvdev("equal") == Some(13)
    ensures KeysymToEvdev("backspace") == Some(14) && KeysymToEvdev("tab") == Some(15)
  {
    hide KeysymToEvdev;
    NamedKey("minus");
    NamedKey("equal");
    NamedKey("backspace");
    NamedKey("tab");
  }

  lemma AfterUpperRow()
    ensures KeysymToEvdev("bracketleft") == Some(26) && KeysymToEvdev("bracketright") == Some(27)
    ensures KeysymToEvdev("return") == Some(28)
  {
    hide KeysymToEvdev;
    NamedKey("bracketleft");
    NamedKey("bracketright");
    NamedKey("return");
  }

  lemma AfterHomeRow()
    ensures KeysymToEvdev("semicolon") == Some(39) && KeysymToEvdev("apostrophe") == Some(40)
    ensures KeysymToEvdev("grave") == Some(41)
  {
    hide KeysymToEvdev;
    NamedKey("semicolon");
    NamedKey("apostrophe");
    NamedKey("grave");
  }

  lemma AfterLowerRow()
    ensures KeysymToEvdev("comma") == Some(51) && KeysymToEvdev("period") == Some(52)
    ensures KeysymToEvdev("slash") == Some(53)
  {
    hide KeysymToEvdev;
    NamedKey("comma");
    NamedKey("period");
    NamedKey("slash");
  }

  lemma UpperBlock()
    ensures KeysymToEvdev("home") == Some(102) && KeysymToEvdev("up") == Some(103)
    ensures KeysymToEvdev("page_up") == Some(104) && KeysymToEvdev("left") == Some(105)
    ensures KeysymToEvdev("right") == Some(106)
  {
    hide KeysymToEvdev;
    NamedKey("home");
    NamedKey("up");
    NamedKey("page_up");
    NamedKey("left");
    NamedKey("right");
  }

  lemma LowerBlock()
    ensures KeysymToEvdev("end") == Some(107) && KeysymToEvdev("down") == Some(108)
    ensures KeysymToEvdev("page_down") == Some(109) && KeysymToEvdev("insert") == Some(110)
    ensures KeysymToEvdev("delete") == Some(111)
  {
    hide KeysymToEvdev;
    NamedKey("end");
    NamedKey("down");
    NamedKey("page_down");
    NamedKey("insert");
    NamedKey("delete");
  }

  lemma LateFunctionKeys()
    ensures KeysymToEvdev("f10") == Some(68) && KeysymToEvdev("f11") == Some(87)
    ensures KeysymToEvdev("f12") == Some(88)
  {
    hide KeysymToEvdev;
    NamedKey("f10");
    NamedKey("f11");
    NamedKey("f12");
  }

  lemma EarlyFunctionKeys()
    ensures InOrder(["f1", "f2", "f3", "f4", "f5", "f6", "f7", "f8", "f9"], 59)
  {
    hide KeysymToEvdev;
    forall c: char | '1' <= c <= '9' ensures KeysymToEvdev(['f', c]) == Some(58 + (c as int - '0' as int)) {
      NamedKey(['f', c]);
      NumberedKey(c);
    }
  }

  lemma NumberedKey(c: char)
    requires '1' <= c <= '9'
    ensures NamedCode(['f', c]) == FunctionKey(['f', c])
  {
  }

  /**
   * The kernel's codes count along the rows of the keyboard, through the function keys and the navigation block, so
   * each name stands for the key in its place.
   */
  lemma KeyboardLayout()
    ensures LettersInOrder("1234567890", 2) && InOrder(["minus", "equal", "backspace", "tab"], 12)
    ensures LettersInOrder("qwertyuiop", 16) && InOrder(["bracketleft", "bracketright", "return"], 26)
    ensures LettersInOrder("asdfghjkl", 30) && InOrder(["semicolon", "apostrophe", "grave"], 39)
    ensures LettersInOrder("zxcvbnm", 44) && InOrder(["comma", "period", "slash"], 51)
    ensures InOrder(["f1", "f2", "f3", "f4", "f5", "f6", "f7", "f8", "f9"], 59)
    ensures InOrder(["home", "up", "page_up", "left", "right", "end", "down", "page_down", "insert", "delete"], 102)
  {
    hide KeysymToEvdev, LettersInOrder;
    DigitRow();
    UpperRow();
    HomeRow();
    LowerRow();
    AfterDigits();
    AfterUpperRow();
    AfterHomeRow();
    AfterLowerRow();
    UpperBlock();
    LowerBlock();
    LateFunctionKeys();
    EarlyFunctionKeys();
  }

  lemma OffTheRows()
    ensures KeysymToEvdev("escape") == Some(1) && KeysymToEvdev("space") == Some(57)
    ensures KeysymToEvdev("backslash") == Some(43)
  {
    hide KeysymToEvdev;
    NamedKey("escape");
    NamedKey("space");
    NamedKey("backslash");
  }

  lemma ReturnAndEscapeNames()
    ensures KeysymToEvdev("enter") == Some(28) && KeysymToEvdev("kp_enter") == Some(28)
    ensures KeysymToEvdev("esc") == Some(1) && KeysymToEvdev("dot") == Some(52)
  {
    hide KeysymToEvdev;
    NamedKey("enter");
    NamedKey("kp_enter");
    NamedKey("esc");
    NamedKey("dot");
  }

  lemma EditingNames()
    ensures KeysymToEvdev("del") == Some(111) && KeysymToEvdev("ins") == Some(110)
  {
    hide KeysymToEvdev;
    NamedKey("del");
    NamedKey("ins");
  }

  lemma PageNames()
    ensures KeysymToEvdev("pageup") == Some(104) && KeysymToEvdev("prior") == Some(104)
    ensures KeysymToEvdev("pagedown") == Some(109) && KeysymToEvdev("next") == Some(109)
  {
    hide KeysymToEvdev;
    NamedKey("pageup");
    NamedKey("prior");
    NamedKey("pagedown");
    NamedKey("next");
  }

  /** The keys off the rows, and the second names, which stand for the key that the first name does. */
  lemma OtherNames()
    ensures KeysymToEvdev("escape") == Some(1) && KeysymToEvdev("space") == Some(57)
    ensures KeysymToEvdev("backslash") == Some(43)
    ensures KeysymToEvdev("f10") == Some(68)
    ensures KeysymToEvdev("f11") == Some(87) && KeysymToEvdev("f12") == Some(88)
    ensures KeysymToEvdev("enter") == KeysymToEvdev("kp_enter") == KeysymToEvdev("return")
    ensures KeysymToEvdev("esc") == KeysymToEvdev("escape") && KeysymToEvdev("dot") == KeysymToEvdev("period")
    ensures KeysymToEvdev("del") == KeysymToEvdev("delete") && KeysymToEvdev("ins") == KeysymToEvdev("insert")
    ensures KeysymToEvdev("pageup") == KeysymToEvdev("prior") == KeysymToEvdev("page_up")
    ensures KeysymToEvdev("pagedown") == KeysymToEvdev("next") == KeysymToEvdev("page_down")
  {
    hide KeysymToEvdev;
    OffTheRows();
    ReturnAndEscapeNames();
    EditingNames();
    PageNames();
    AfterUpperRow();
    AfterLowerRow();
    UpperBlock();
    LowerBlock();
    LateFunctionKeys();
  }

  /** A chord with all four modifiers, in the kernel's codes for the left control, shift, alt and meta keys. */
  lemma FullChord(code: nat)
    ensures var down, up := (k: nat) => KeyEvent(k, true), (k: nat) => KeyEvent(k, false);
      Chord(Ordered({Ctrl, Shift, Alt, Super}), code)
      == [down(29), down(42), down(56), down(125), down(code), up(code), up(125), up(56), up(42), up(29)]
  {
    assert Ordered({Ctrl, Shift, Alt, Super}) == [Ctrl, Shift, Alt, Super];
    assert Releases([Super]) == [KeyEvent(125, false)] by { assert [Super][1..] == []; }
    assert [Alt, Super][1..] == [Super];
    assert [Shift, Alt, Super][1..] == [Alt, Super];
    assert [Ctrl, Shift, Alt, Super][1..] == [Shift, Alt, Super];
  }

  /** Keys are named without regard to case. */
  lemma KeyCaseIgnored(a: string, b: string)
    requires Lower(a) == Lower(b)
    ensures KeysymToEvdev(a) == KeysymToEvdev(b)
  {
    assert |a| == |b|;
    if |a| == 1 {
      assert Lower(a)[0] == Lower(b)[0];
      assert 'a' <= Lower(a)[0] <= 'z' || a == b by { OneCharCase(a[0], b[0]); }
    }
  }

  lemma OneCharCase(c: char, d: char)
    requires LowerChar(c) == LowerChar(d)
    ensures 'a' <= LowerChar(c) <= 'z' || c == d
  {
  }

  // ---- what is read --------------------------------------------------------------------------------

  /** Each modifier with the names it is read under. */
  function Aliases(m: Modifier): set<string> {
    match m
    case Ctrl => {"ctrl", "control"}
    case Shift => {"shift"}
    case Alt => {"alt", "meta"}
    case Super => {"super", "win", "windows", "mod4", "cmd", "command"}
  }

  /** Modifiers are read under their names and no others, in any case. */
  lemma ModifierNames(s: string, m: Modifier)
    ensures ParseModifier(s) == Some(m) <==> Lower(s) in Aliases(m)
  {
    hide Lower;
  }

  lemma NameFirst(m: Modifier, rest: seq<Modifier>, key: string)
    ensures NamesThenKey([m] + rest, key) == DisplayName(m) + "+" + NamesThenKey(rest, key)
  {
    assert ([m] + rest)[1..] == rest;
  }

  lemma DisplayNames()
    ensures Display(KeyCombo({Ctrl, Shift, Alt, Super}, "t")) == "ctrl" + "+" + ("shift" + "+" + ("alt" + "+" + "logo+t"))
  {
    assert Ordered({Ctrl, Shift, Alt, Super}) == [Ctrl] + ([Shift] + ([Alt] + ([Super] + [])));
    hide Ordered, NamesThenKey;
    KeyAlone("t");
    NameFirst(Super, [], "t");
    NameFirst(Alt, [Super] + [], "t");
    NameFirst(Shift, [Alt] + ([Super] + []), "t");
    NameFirst(Ctrl, [Shift] + ([Alt] + ([Super] + [])), "t");
  }

  lemma KeyAlone(key: string)
    ensures NamesThenKey([], key) == key
  {
  }

  /** A text of white space is no combo; otherwise a blank between plus signs is what is wrong first. */
  lemma ComboErrors(s: string)
    ensures Parse(s) == Err(EmptyCombo) <==> AllSpace(s)
    ensures Parse(s) == Err(EmptyToken)
      <==> !AllSpace(s) && exists k | 0 <= k < |Split(Trim(s), '+')| :: AllSpace(Split(Trim(s), '+')[k])
  {
    hide IsSpace, Trim, Split, ParseModifiers, AllSpace;
    TrimEmpty(s);
    var pieces := Split(Trim(s), '+');
    var parts := TrimAll(pieces);
    forall k | 0 <= k < |pieces| ensures parts[k] == "" <==> AllSpace(pieces[k]) { TrimEmpty(pieces[k]); }
    assert "" in parts <==> exists k | 0 <= k < |pieces| :: AllSpace(pieces[k]) by {
      if "" in parts {
        var k :| 0 <= k < |parts| && parts[k] == "";
        assert AllSpace(pieces[k]);
      }
      if k :| 0 <= k < |pieces| && AllSpace(pieces[k]) { assert parts[k] == "" && parts[k] in parts; }
    }
  }
}
