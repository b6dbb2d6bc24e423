/** Typed view of the lines of Hyprland's event socket. */
module Events {
  import opened Wrappers
  import opened Text
  import Selectors

  /** One line, split into event name and payload. */
  datatype RawEvent = RawEvent(name: string, data: string)

  datatype Event = Event(kind: string, fields: map<string, string>, raw: RawEvent)

  /** The first `>>` separates name and payload; a line without one is all name. */
  function SplitArrow(line: string): RawEvent {
    if line == "" then RawEvent("", "")
    else if ">>" <= line then RawEvent("", line[2..])
    else
      var rest := SplitArrow(line[1..]);
      RawEvent([line[0]] + rest.name, rest.data)
  }

  predicate EndsLine(c: char) {
    c == '\n' || c == '\r'
  }

  /** Without the line ends and carriage returns that it closes with. */
  function TrimEnd(line: string): string {
    if line != "" && EndsLine(line[|line| - 1]) then TrimEnd(line[..|line| - 1]) else line
  }

  function ParseLine(line: string): RawEvent {
    SplitArrow(TrimEnd(line))
  }

  function ParseLines(lines: seq<string>): (r: seq<RawEvent>)
    ensures |r| == |lines|
    ensures forall k | 0 <= k < |lines| :: r[k] == ParseLine(lines[k])
  {
    if lines == [] then [] else [ParseLine(lines[0])] + ParseLines(lines[1..])
  }

  /** What the reader makes of a text that is written to the socket and closed with a newline: one event per line. */
  function Received(text: string): seq<RawEvent> {
    ParseLines(Split(text, '\n'))
  }

  function ExtractFields(name: string, data: string): map<string, string> {
    if data == "" then map[]
    else
      var p := Split(data, ',');
      var addr := Selectors.NormalizeAddr(p[0]);
      if name == "openwindow" && |p| >= 4 then
        map["address" := addr, "workspace" := p[1], "class" := p[2], "title" := Join(p[3..], ',')]
      else if name == "closewindow" then map["address" := addr]
      else if name == "movewindow" && |p| >= 2 then map["address" := addr, "workspace" := p[1]]
      else if name == "movewindowv2" && |p| >= 3 then
        map["address" := addr, "workspace_id" := p[1], "workspace" := p[2]]
      else if name == "windowtitle" then map["address" := addr]
      else if name == "windowtitlev2" && |p| >= 2 then map["address" := addr, "title" := Join(p[1..], ',')]
      else if name == "activewindow" && |p| >= 2 then map["class" := p[0], "title" := Join(p[1..], ',')]
      else if name == "activewindowv2" then map["address" := addr]
      else if name == "workspace" then map["name" := p[0]]
      else if name == "workspacev2" && |p| >= 2 then map["id" := p[0], "name" := p[1]]
      else if name == "focusedmon" && |p| >= 2 then map["monitor" := p[0], "workspace" := p[1]]
      else if name == "fullscreen" then map["state" := p[0]]
      else if name == "changefloatingmode" && |p| >= 2 then map["address" := addr, "floating" := p[1]]
      else if name == "monitoradded" || name == "monitorremoved" then map["name" := p[0]]
      else if name == "monitoraddedv2" && |p| >= 2 then
        var named := map["id" := p[0], "name" := p[1]];
        if |p| >= 3 then named["description" := Join(p[2..], ',')] else named
      else if name == "submap" then map["name" := p[0]]
      else if name == "pin" && |p| >= 2 then map["address" := addr, "state" := p[1]]
      else if name == "urgent" then map["address" := addr]
      else map[]
  }

  function FromRaw(raw: RawEvent): Event {
    Event(raw.name, ExtractFields(raw.name, raw.data), raw)
  }

  function Field(ev: Event, key: string): Option<string> {
    if key in ev.fields then Some(ev.fields[key]) else None
  }

  // ---- splitting loses nothing ----------------------------------------------

  /** An address and a title of any text, commas included, come back from a title event. */
  lemma TitleEventFields(addr: string, title: string)
    requires ',' !in addr
    ensures ExtractFields("windowtitlev2", addr + "," + title)
         == map["address" := Selectors.NormalizeAddr(addr), "title" := title]
  {
    SplitHead(addr, ',', title);
    JoinSplit(title, ',');
    assert ([addr] + Split(title, ','))[1..] == Split(title, ',');
    assert "windowtitlev2" != "windowtitle" by { assert |"windowtitlev2"| != |"windowtitle"|; }
  }

  lemma ActiveEventFields(cls: string, title: string)
    requires ',' !in cls
    ensures ExtractFields("activewindow", cls + "," + title) == map["class" := cls, "title" := title]
  {
    SplitHead(cls, ',', title);
    JoinSplit(title, ',');
    assert ([cls] + Split(title, ','))[1..] == Split(title, ',');
  }

  lemma OpenEventFields(addr: string, workspace: string, cls: string, title: string)
    requires ',' !in addr && ',' !in workspace && ',' !in cls
    ensures ExtractFields("openwindow", addr + "," + workspace + "," + cls + "," + title)
         == map["address" := Selectors.NormalizeAddr(addr), "workspace" := workspace, "class" := cls, "title" := title]
  {
    var data := addr + "," + workspace + "," + cls + "," + title;
    assert data == addr + "," + (workspace + "," + (cls + "," + title));
    SplitHead(addr, ',', workspace + "," + (cls + "," + title));
    assert workspace + "," + (cls + "," + title) == workspace + [','] + (cls + "," + title);
    SplitHead(workspace, ',', cls + "," + title);
    SplitHead(cls, ',', title);
    JoinSplit(title, ',');
    var p := Split(data, ',');
    assert p == [addr, workspace, cls] + Split(title, ',');
    assert p[3..] == Split(title, ',');
  }

  /** A line is split at its first `>>`; later ones stay in the payload. */
  lemma {:induction false} ArrowRoundTrip(name: string, data: string)
    requires '>' !in name
    ensures SplitArrow(name + ">>" + data) == RawEvent(name, data)
  {
    var line := name + ">>" + data;
    if name == "" {
      assert line[2..] == data;
    } else {
      assert line[0] == name[0] && ">>"[0] == '>';
      assert line[1..] == name[1..] + ">>" + data;
      ArrowRoundTrip(name[1..], data);
      assert [name[0]] + name[1..] == name;
    }
  }

  lemma {:induction false} ArrowLength(line: string)
    ensures SplitArrow(line).data != "" ==> |SplitArrow(line).name| + 2 + |SplitArrow(line).data| == |line|
  {
    if line != "" && !(">>" <= line) { ArrowLength(line[1..]); }
  }

  lemma {:induction false} TrimmedLength(line: string)
    ensures |TrimEnd(line)| <= |line|
    ensures |TrimEnd(line)| == |line| <==> line == "" || !EndsLine(line[|line| - 1])
    ensures |TrimEnd(line)| == |line| ==> TrimEnd(line) == line
  {
    if line != "" { TrimmedLength(line[..|line| - 1]); }
  }

  /** A carriage return at the end is lost. */
  lemma ReturnLost(text: string)
    requires '\n' !in text
    ensures Received(text + "\r") == Received(text)
  {
    var longer := text + "\r";
    assert '\n' !in longer && longer[..|longer| - 1] == text;
    SplitWhole(text, '\n');
    SplitWhole(longer, '\n');
    assert TrimEnd(longer) == TrimEnd(text);
  }

  /** The payload holds no newline and does not end in a carriage return. */
  predicate FitsLine(data: string) {
    '\n' !in data && (data == "" || data[|data| - 1] != '\r')
  }

  /** An event written to the socket is read back as itself exactly when its payload fits a line. */
  lemma LineRoundTrip(name: string, data: string)
    requires '>' !in name && '\n' !in name
    ensures Received(name + ">>" + data) == [RawEvent(name, data)] <==> FitsLine(data)
  {
    var line := name + ">>" + data;
    OnePiece(line, '\n');
    assert '\n' in line <==> '\n' in data by {
      assert forall c :: c in line <==> c in name || c in ">>" || c in data;
    }
    if '\n' !in data {
      SplitWhole(line, '\n');
      TrimmedLength(line);
      assert line[|line| - 1] == if data == "" then '>' else data[|data| - 1];
      if FitsLine(data) {
        ArrowRoundTrip(name, data);
      } else {
        ArrowLength(TrimEnd(line));
      }
    }
  }

  lemma OneWindowField(v: string)
    requires ',' !in v && v != ""
    ensures ExtractFields("closewindow", v) == map["address" := Selectors.NormalizeAddr(v)]
    ensures ExtractFields("windowtitle", v) == map["address" := Selectors.NormalizeAddr(v)]
    ensures ExtractFields("activewindowv2", v) == map["address" := Selectors.NormalizeAddr(v)]
    ensures ExtractFields("urgent", v) == map["address" := Selectors.NormalizeAddr(v)]
  {
    hide Split;
    SplitWhole(v, ',');
  }

  lemma OneField(v: string)
    requires ',' !in v && v != ""
    ensures ExtractFields("workspace", v) == map["name" := v] && ExtractFields("submap", v) == map["name" := v]
    ensures ExtractFields("monitoradded", v) == map["name" := v]
    ensures ExtractFields("monitorremoved", v) == map["name" := v]
    ensures ExtractFields("fullscreen", v) == map["state" := v]
  {
    hide Split;
    SplitWhole(v, ',');
  }

  lemma TwoPieces(a: string, b: string)
    requires ',' !in a && ',' !in b
    ensures Split(a + "," + b, ',') == [a, b]
  {
    SplitHead(a, ',', b);
    SplitWhole(b, ',');
  }

  lemma TwoWindowFields(a: string, b: string)
    requires ',' !in a && ',' !in b
    ensures var data, address := a + "," + b, Selectors.NormalizeAddr(a);
      && ExtractFields("movewindow", data) == map["address" := address, "workspace" := b]
      && ExtractFields("changefloatingmode", data) == map["address" := address, "floating" := b]
      && ExtractFields("pin", data) == map["address" := address, "state" := b]
  {
    hide Split;
    TwoPieces(a, b);
  }

  lemma TwoFields(a: string, b: string)
    requires ',' !in a && ',' !in b
    ensures var data := a + "," + b;
      && ExtractFields("workspacev2", data) == map["id" := a, "name" := b]
      && ExtractFields("focusedmon", data) == map["monitor" := a, "workspace" := b]
      && ExtractFields("monitoraddedv2", data) == map["id" := a, "name" := b]
  {
    hide Split;
    TwoPieces(a, b);
  }

  lemma ThreeFields(a: string, b: string, c: string)
    requires ',' !in a && ',' !in b
    ensures var data := a + "," + b + "," + c;
      ExtractFields("monitoraddedv2", data) == map["id" := a, "name" := b, "description" := c]
    ensures ',' !in c ==>
      ExtractFields("movewindowv2", a + "," + b + "," + c)
      == map["address" := Selectors.NormalizeAddr(a), "workspace_id" := b, "workspace" := c]
  {
    hide Split, Join;
    var data := a + "," + b + "," + c;
    assert data == a + "," + (b + "," + c);
    SplitHead(a, ',', b + "," + c);
    SplitHead(b, ',', c);
    JoinSplit(c, ',');
    var p := Split(data, ',');
    assert p == [a, b] + Split(c, ',');
    assert p[2..] == Split(c, ',');
    if ',' !in c { SplitWhole(c, ','); }
  }
}
