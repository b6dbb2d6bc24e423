/** Window selectors and workspace references: the dispatcher argument grammar and its parsers. */
module Selectors {
  import opened Wrappers
  import opened Decimal

  datatype SelectorError = MissingPrefix | UnknownPrefix | BadPid | BadOffset | BadId

  datatype WindowSelector =
    | Address(address: string)
    | Pid(pid: i32)
    | Class(pattern: string)
    | Title(pattern: string)
    | Tag(name: string)
    | Active

  datatype WorkspaceRef =
    | Id(id: i32)
    | Name(name: string)
    | Relative(offset: i32)
    | Previous
    | Next
    | Empty
    | Special(name: string)

  /** Where a relative workspace move can land: on a numbered workspace. */
  type NumberedId = n: i32 | n >= 1 witness 1

  function NormalizeAddr(a: string): string {
    if "0x" <= a then a else "0x" + a
  }

  function EncodeWindow(w: WindowSelector): string {
    match w
    case Address(a) => if "0x" <= a then "address:" + a else "address:0x" + a
    case Pid(p) => "pid:" + Print(p)
    case Class(c) => "class:" + c
    case Title(t) => "title:" + t
    case Tag(t) => "tag:" + t
    case Active => "activewindow"
  }

  /** The text before and after the first occurrence of `c`. */
  function SplitOnce(s: string, c: char): Option<(string, string)> {
    if s == "" then None
    else if s[0] == c then Some(("", s[1..]))
    else match SplitOnce(s[1..], c)
      case None => None
      case Some((k, v)) => Some(([s[0]] + k, v))
  }

  function ParseWindow(s: string): Result<WindowSelector, SelectorError> {
    if s == "active" || s == "activewindow" then Ok(Active)
    else match SplitOnce(s, ':')
      case None => Err(MissingPrefix)
      case Some((k, v)) =>
        if k == "address" then Ok(Address(v))
        else if k == "pid" then
          match Parse(v)
          case Some(p) => Ok(Pid(p))
          case None => Err(BadPid)
        else if k == "class" then Ok(Class(v))
        else if k == "title" then Ok(Title(v))
        else if k == "tag" then Ok(Tag(v))
        else Err(UnknownPrefix)
  }

  function EncodeWorkspace(w: WorkspaceRef): string {
    match w
    case Id(n) => Print(n)
    case Name(n) => "name:" + n
    case Relative(n) => if n >= 0 then "+" + Print(n) else Print(n)
    case Previous => "prev"
    case Next => "next"
    case Empty => "empty"
    case Special(n) => if n == "" then "special" else "special:" + n
  }

  function ParseWorkspace(s: string): Result<WorkspaceRef, SelectorError> {
    if "name:" <= s then Ok(Name(s[5..]))
    else if "special:" <= s then Ok(Special(s[8..]))
    else if s == "special" then Ok(Special(""))
    else if s == "empty" then Ok(Empty)
    else if s == "prev" || s == "previous" then Ok(Previous)
    else if s == "next" then Ok(Next)
    else if "+" <= s then
      match Parse(s[1..])
      case Some(n) => Ok(Relative(n))
      case None => Err(BadOffset)
    else if "-" <= s then
      match Parse(s)
      case Some(n) => Ok(Relative(n))
      case None => Err(BadOffset)
    else
      match Parse(s)
      case Some(n) => Ok(Id(n))
      case None => Err(BadId)
  }

  // ---- round trips ---------------------------------------------------------

  lemma {:induction false} SplitOnceAt(k: string, c: char, v: string)
    requires c !in k
    ensures SplitOnce(k + [c] + v, c) == Some((k, v))
  {
    var s := k + [c] + v;
    if k == "" {
      assert s[1..] == v;
    } else {
      assert s[1..] == k[1..] + [c] + v;
      SplitOnceAt(k[1..], c, v);
      assert [k[0]] + k[1..] == k;
    }
  }

  /** The selector that survives encoding: addresses gain the `0x` prefix. */
  function NormalizeWindow(w: WindowSelector): WindowSelector {
    if w.Address? then Address(NormalizeAddr(w.address)) else w
  }

  lemma PrefixedParse(k: string, v: string)
    requires ':' !in k
    ensures SplitOnce(k + ":" + v, ':') == Some((k, v))
    ensures k + ":" + v != "active" && k + ":" + v != "activewindow"
  {
    SplitOnceAt(k, ':', v);
    var s := k + ":" + v;
    assert s[|k|] == ':';
    assert ':' !in "active" && ':' !in "activewindow";
  }

  lemma WindowReparsed(w: WindowSelector)
    ensures ParseWindow(EncodeWindow(w)) == Ok(NormalizeWindow(w))
  {
    hide SplitOnce, Print, Parse;
    match w
    case Address(a) =>
      assert EncodeWindow(w) == "address" + ":" + NormalizeAddr(a);
      PrefixedParse("address", NormalizeAddr(a));
    case Pid(p) =>
      assert EncodeWindow(w) == "pid" + ":" + Print(p);
      PrefixedParse("pid", Print(p));
      ParsePrint(p);
    case Class(c) =>
      assert EncodeWindow(w) == "class" + ":" + c;
      PrefixedParse("class", c);
    case Title(t) =>
      assert EncodeWindow(w) == "title" + ":" + t;
      PrefixedParse("title", t);
    case Tag(t) =>
      assert EncodeWindow(w) == "tag" + ":" + t;
      PrefixedParse("tag", t);
    case Active =>
  }

  /** Encoding and parsing a window selector returns it with its address normalised, and changes nothing more. */
  lemma WindowRoundTrip(w: WindowSelector)
    ensures ParseWindow(EncodeWindow(w)) == Ok(NormalizeWindow(w))
    ensures NormalizeWindow(NormalizeWindow(w)) == NormalizeWindow(w)
    ensures EncodeWindow(NormalizeWindow(w)) == EncodeWindow(w)
    ensures ParseWindow(EncodeWindow(w)) == Ok(w) <==> !(w.Address? && !("0x" <= w.address))
  {
    hide ParseWindow;
    WindowReparsed(w);
    if w.Address? { assert "0x" <= "0x" + w.address; }
  }

  lemma NumeralIsNoKeyword(s: string)
    requires s != "" && (IsDigit(s[0]) || s[0] == '+' || s[0] == '-')
    ensures !("name:" <= s) && !("special:" <= s)
    ensures s != "special" && s != "empty" && s != "prev" && s != "previous" && s != "next"
  {
    assert "name:"[0] == 'n' && "special:"[0] == 's';
  }

  lemma NumberReparsed(w: WorkspaceRef)
    requires w.Id? || w.Relative?
    ensures ParseWorkspace(EncodeWorkspace(w)) == Ok(if w.Id? && w.id < 0 then Relative(w.id) else w)
  {
    var s := EncodeWorkspace(w);
    var n := if w.Id? then w.id else w.offset;
    ParsePrint(n);
    if n >= 0 { DigitsValue(n); }
    NumeralIsNoKeyword(s);
    if w.Relative? && n >= 0 { assert s[1..] == Print(n); }
  }

  lemma TextReparsed(w: WorkspaceRef)
    requires w.Name? || w.Special?
    ensures ParseWorkspace(EncodeWorkspace(w)) == Ok(w)
  {
    var s := EncodeWorkspace(w);
    if w.Name? {
      assert s[5..] == w.name;
    } else if w.name == "" {
      assert s[0] == 's' && "name:"[0] == 'n';
      assert |s| < |"special:"|;
    } else {
      assert s[0] == 's' && "name:"[0] == 'n';
      assert s[8..] == w.name;
    }
  }

  lemma KeywordReparsed(w: WorkspaceRef)
    requires w.Previous? || w.Next? || w.Empty?
    ensures ParseWorkspace(EncodeWorkspace(w)) == Ok(w)
  {
    assert "name:"[1] == 'a' && "special:"[0] == 's';
    assert "next"[1] == 'e' && "prev"[0] == 'p' && "empty"[0] == 'e';
  }

  /** What the parser makes of each encoding: an `Id` below zero comes back as a relative move. */
  lemma WorkspaceReparsed(w: WorkspaceRef)
    ensures ParseWorkspace(EncodeWorkspace(w)) == Ok(if w.Id? && w.id < 0 then Relative(w.id) else w)
  {
    if w.Id? || w.Relative? { NumberReparsed(w); }
    else if w.Name? || w.Special? { TextReparsed(w); }
    else { KeywordReparsed(w); }
  }

  /** A workspace reference survives printing and parsing exactly when it is not a numeric id below zero. */
  lemma WorkspaceRoundTrip(w: WorkspaceRef)
    ensures ParseWorkspace(EncodeWorkspace(w)) == Ok(w) <==> !(w.Id? && w.id < 0)
  {
    WorkspaceReparsed(w);
  }

  // ---- the accepted texts --------------------------------------------------------------------------

  /** `s` spells the selector: `active` alone, or a key, a colon and the rest as it is. */
  predicate Spells(s: string, w: WindowSelector) {
    match w
    case Address(a) => s == "address:" + a
    case Pid(p) => "pid:" <= s && Parse(s[4..]) == Some(p)
    case Class(c) => s == "class:" + c
    case Title(t) => s == "title:" + t
    case Tag(t) => s == "tag:" + t
    case Active => s == "active" || s == "activewindow"
  }

  lemma {:induction false} SplitOnceParts(s: string, c: char)
    ensures SplitOnce(s, c).None? <==> c !in s
    ensures SplitOnce(s, c).Some? ==>
      s == SplitOnce(s, c).value.0 + [c] + SplitOnce(s, c).value.1 && c !in SplitOnce(s, c).value.0
  {
    if s != "" && s[0] != c {
      SplitOnceParts(s[1..], c);
      assert s == [s[0]] + s[1..];
    }
  }

  lemma SpelledParses(s: string, w: WindowSelector)
    requires Spells(s, w)
    ensures ParseWindow(s) == Ok(w)
  {
    hide SplitOnce, Parse;
    match w
    case Address(a) => PrefixedParse("address", a); assert s == "address" + ":" + a;
    case Pid(p) => PrefixedParse("pid", s[4..]); assert s == "pid" + ":" + s[4..];
    case Class(c) => PrefixedParse("class", c); assert s == "class" + ":" + c;
    case Title(t) => PrefixedParse("title", t); assert s == "title" + ":" + t;
    case Tag(t) => PrefixedParse("tag", t); assert s == "tag" + ":" + t;
    case Active =>
  }

  /** Exactly the texts that spell a selector are read as it; any other is refused with the reason why. */
  lemma WindowGrammar(s: string, w: WindowSelector)
    ensures ParseWindow(s) == Ok(w) <==> Spells(s, w)
    ensures ParseWindow(s) == Err(MissingPrefix) <==> ':' !in s && s != "active" && s != "activewindow"
    ensures ParseWindow(s) == Err(BadPid) <==> "pid:" <= s && Parse(s[4..]) == None
  {
    hide SplitOnce, Parse;
    SplitOnceParts(s, ':');
    if Spells(s, w) { SpelledParses(s, w); }
    if "pid:" <= s {
      PrefixedParse("pid", s[4..]);
      assert s == "pid" + ":" + s[4..];
    }
    if SplitOnce(s, ':').Some? {
      var (k, v) := SplitOnce(s, ':').value;
      assert s == k + ":" + v;
      if k == "pid" { assert s[4..] == v; }
    }
  }

  /** `s` spells the workspace: a keyword, a name with its prefix, or a number, signed when it is relative. */
  predicate SpellsWorkspace(s: string, w: WorkspaceRef) {
    match w
    case Id(n) => s != "" && s[0] != '+' && s[0] != '-' && Parse(s) == Some(n)
    case Name(n) => s == "name:" + n
    case Relative(n) => s != "" && ((s[0] == '+' && Parse(s[1..]) == Some(n)) || (s[0] == '-' && Parse(s) == Some(n)))
    case Previous => s == "prev" || s == "previous"
    case Next => s == "next"
    case Empty => s == "empty"
    case Special(n) => s == "special:" + n || (n == "" && s == "special")
  }

  lemma NumeralHead(s: string)
    requires Parse(s).Some?
    ensures s != "" && (IsDigit(s[0]) || s[0] == '+' || s[0] == '-')
  {
  }

  lemma WorkspaceGrammar(s: string, w: WorkspaceRef)
    ensures ParseWorkspace(s) == Ok(w) <==> SpellsWorkspace(s, w)
  {
    hide Parse;
    if s != "" && (s[0] == '+' || s[0] == '-') { NumeralIsNoKeyword(s); }
    if Parse(s).Some? { NumeralHead(s); NumeralIsNoKeyword(s); }
    if w.Name? && s == "name:" + w.name { assert s[5..] == w.name; }
    if w.Special? && s == "special:" + w.name { assert s[8..] == w.name && s[0] == 's' && "name:"[0] == 'n'; }
    WorkspaceKeywords();
  }

  lemma WorkspaceKeywords()
    ensures ParseWorkspace("special") == Ok(Special("")) && ParseWorkspace("empty") == Ok(Empty)
    ensures ParseWorkspace("prev") == Ok(Previous) && ParseWorkspace("previous") == Ok(Previous)
    ensures ParseWorkspace("next") == Ok(Next)
  {
    assert "name:"[0] == 'n' && "name:"[1] == 'a' && "special:"[0] == 's' && |"special:"| > |"special"|;
    assert "special"[0] == 's' && "next"[1] == 'e' && "prev"[0] == 'p' && "previous"[0] == 'p' && "empty"[0] == 'e';
  }
}
