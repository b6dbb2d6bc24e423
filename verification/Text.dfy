/** Splitting, joining, trimming and case: what the parsers share. */
module Text {

  function LowerChar(c: char): char {
    if 'A' <= c <= 'Z' then c - 'A' + 'a' else c
  }

  /** ASCII letters in lower case, all else as it is. */
  function Lower(s: string): (r: string)
    ensures |r| == |s|
    ensures forall k | 0 <= k < |s| :: r[k] == LowerChar(s[k])
  {
    if s == "" then "" else [LowerChar(s[0])] + Lower(s[1..])
  }

  /** Unicode white space. */
  predicate IsSpace(c: char) {
    '\U{9}' <= c <= '\U{D}' || c == ' ' || c == '\U{85}' || c == '\U{A0}' || c == '\U{1680}'
    || '\U{2000}' <= c <= '\U{200A}' || c == '\U{2028}' || c == '\U{2029}' || c == '\U{202F}'
    || c == '\U{205F}' || c == '\U{3000}'
  }

  predicate IsTrimmed(s: string) {
    s == "" || (!IsSpace(s[0]) && !IsSpace(s[|s| - 1]))
  }

  function Trim(s: string): (r: string)
    ensures IsTrimmed(r)
    ensures IsTrimmed(s) ==> r == s
    ensures forall c | c in r :: c in s
  {
    if s == "" then ""
    else if IsSpace(s[0]) then Trim(s[1..])
    else if IsSpace(s[|s| - 1]) then Trim(s[..|s| - 1])
    else s
  }

  predicate AllSpace(s: string) {
    forall c | c in s :: IsSpace(c)
  }

  /** Trimming takes off white space at the ends and nothing else. */
  lemma {:induction false} TrimOnlySpace(s: string) returns (before: string, after: string)
    ensures s == before + Trim(s) + after && AllSpace(before) && AllSpace(after)
    decreases |s|
  {
    hide IsSpace;
    if s == "" || (!IsSpace(s[0]) && !IsSpace(s[|s| - 1])) {
      before, after := "", "";
    } else if IsSpace(s[0]) {
      before, after := TrimOnlySpace(s[1..]);
      before := [s[0]] + before;
    } else {
      before, after := TrimOnlySpace(s[..|s| - 1]);
      after := after + [s[|s| - 1]];
    }
  }

  lemma TrimEmpty(s: string)
    ensures Trim(s) == "" <==> AllSpace(s)
  {
    hide IsSpace, Trim;
    var before, after := TrimOnlySpace(s);
    assert Trim(s) != "" ==> Trim(s)[0] in s && !IsSpace(Trim(s)[0]);
    if Trim(s) == "" { assert s == before + after; }
  }

  /** The pieces of `s` between occurrences of `c`: one more than there are occurrences. */
  function Split(s: string, c: char): (parts: seq<string>)
    ensures parts != []
  {
    if s == "" then [""]
    else if s[0] == c then [""] + Split(s[1..], c)
    else
      var rest := Split(s[1..], c);
      [[s[0]] + rest[0]] + rest[1..]
  }

  function Join(parts: seq<string>, c: char): string {
    if parts == [] then ""
    else if |parts| == 1 then parts[0]
    else parts[0] + [c] + Join(parts[1..], c)
  }

  lemma JoinEmptyHead(parts: seq<string>, c: char)
    requires parts != []
    ensures Join([""] + parts, c) == [c] + Join(parts, c)
  {
    assert ([""] + parts)[1..] == parts;
  }

  lemma JoinLongerHead(ch: char, parts: seq<string>, c: char)
    requires parts != []
    ensures Join([[ch] + parts[0]] + parts[1..], c) == [ch] + Join(parts, c)
  {
    var longer := [[ch] + parts[0]] + parts[1..];
    assert longer[1..] == parts[1..];
  }

  lemma {:induction false} JoinSplit(s: string, c: char)
    ensures Join(Split(s, c), c) == s
  {
    if s != "" {
      JoinSplit(s[1..], c);
      JoinEmptyHead(Split(s[1..], c), c);
      JoinLongerHead(s[0], Split(s[1..], c), c);
      assert s == [s[0]] + s[1..];
    }
  }

  lemma {:induction false} SplitHead(head: string, c: char, tail: string)
    requires c !in head
    ensures Split(head + [c] + tail, c) == [head] + Split(tail, c)
  {
    var s := head + [c] + tail;
    if head == "" {
      assert s[1..] == tail;
    } else {
      assert s[1..] == head[1..] + [c] + tail;
      SplitHead(head[1..], c, tail);
      assert [head[0]] + head[1..] == head;
      assert ([head[1..]] + Split(tail, c))[1..] == Split(tail, c);
    }
  }

  lemma {:induction false} PiecesLackSeparator(s: string, c: char)
    ensures forall k | 0 <= k < |Split(s, c)| :: c !in Split(s, c)[k]
  {
    if s != "" { PiecesLackSeparator(s[1..], c); }
  }

  lemma {:induction false} SplitWhole(s: string, c: char)
    requires c !in s
    ensures Split(s, c) == [s]
  {
    if s != "" {
      SplitWhole(s[1..], c);
      assert [s[0]] + s[1..] == s;
    }
  }

  /** There is one piece exactly when the separator does not occur. */
  lemma OnePiece(s: string, c: char)
    ensures |Split(s, c)| == 1 <==> c !in s
  {
    if c !in s { SplitWhole(s, c); }
    JoinSplit(s, c);
    PiecesLackSeparator(s, c);
  }
}
