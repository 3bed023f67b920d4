/** The parts of Python's string type that the backend modules use. */
module PythonText {
  /** The white space that `strip` removes. */
  predicate IsSpace(c: char) {
    var u := c as int;
    || 9 <= u <= 13 || 28 <= u <= 32 || u == 0x85 || u == 0xA0 || u == 0x1680 || 0x2000 <= u <= 0x200A
    || u == 0x2028 || u == 0x2029 || u == 0x202F || u == 0x205F || u == 0x3000
  }

  /** The same characters, written out. */
  lemma SpaceExactly(c: char)
    ensures IsSpace(c) <==>
      c in "\t\n\U{000B}\U{000C}\r\U{001C}\U{001D}\U{001E}\U{001F} \U{0085}\U{00A0}\U{1680}"
      || c in "\U{2000}\U{2001}\U{2002}\U{2003}\U{2004}\U{2005}\U{2006}\U{2007}\U{2008}\U{2009}\U{200A}"
      || c in "\U{2028}\U{2029}\U{202F}\U{205F}\U{3000}"
  {
  }

  function StripLeft(s: string): string { if s != "" && IsSpace(s[0]) then StripLeft(s[1..]) else s }

  function StripRight(s: string): string { if s != "" && IsSpace(s[|s| - 1]) then StripRight(s[..|s| - 1]) else s }

  function Strip(s: string): string { StripRight(StripLeft(s)) }

  lemma {:induction false} StripRightKeepsFirst(s: string)
    requires s != "" && !IsSpace(s[0])
    ensures StripRight(s) != "" && StripRight(s)[0] == s[0]
  {
    if IsSpace(s[|s| - 1]) { StripRightKeepsFirst(s[..|s| - 1]); }
  }

  predicate AllSpace(s: string) { forall c | c in s :: IsSpace(c) }

  /** No white space at either end. */
  predicate Stripped(s: string) { s != "" ==> !IsSpace(s[0]) && !IsSpace(s[|s| - 1]) }

  lemma {:induction false} StripLeftSpec(s: string) returns (front: string)
    ensures s == front + StripLeft(s) && AllSpace(front)
    ensures StripLeft(s) != "" ==> !IsSpace(StripLeft(s)[0])
  {
    front := "";
    if s != "" && IsSpace(s[0]) {
      front := StripLeftSpec(s[1..]);
      front := [s[0]] + front;
      assert s == [s[0]] + s[1..];
    }
  }

  lemma {:induction false} StripRightSpec(s: string) returns (back: string)
    ensures s == StripRight(s) + back && AllSpace(back)
    ensures StripRight(s) != "" ==> !IsSpace(StripRight(s)[|StripRight(s)| - 1])
  {
    back := "";
    if s != "" && IsSpace(s[|s| - 1]) {
      back := StripRightSpec(s[..|s| - 1]);
      back := back + [s[|s| - 1]];
      assert s == s[..|s| - 1] + [s[|s| - 1]];
    }
  }

  /** `strip` takes away white space at both ends, all of it, and nothing else. */
  lemma StripSpec(s: string) returns (front: string, back: string)
    ensures s == front + Strip(s) + back && AllSpace(front) && AllSpace(back) && Stripped(Strip(s))
    ensures Strip(s) == "" <==> AllSpace(s)
    ensures Stripped(s) ==> Strip(s) == s
  {
    front := StripLeftSpec(s);
    back := StripRightSpec(StripLeft(s));
    var middle := StripLeft(s);
    assert s == front + Strip(s) + back;
    if middle != "" { StripRightKeepsFirst(middle); }
    forall c | c in s ensures c in front || c in Strip(s) || c in back { }
    if Strip(s) != "" { assert Strip(s)[0] in s; }
  }

  /** White space that is added around a stripped text is taken away again. */
  lemma {:induction false} StripInside(front: string, s: string, back: string)
    requires AllSpace(front) && AllSpace(back) && Stripped(s)
    ensures Strip(front + s + back) == s
  {
    if front != "" {
      assert front[0] in front && forall c | c in front[1..] :: c in front;
      assert (front + s + back)[1..] == front[1..] + s + back;
      StripInside(front[1..], s, back);
    } else if back != "" {
      var shorter := back[..|back| - 1];
      assert back[|back| - 1] in back && forall c | c in shorter :: c in back;
      StripInside(front, s, shorter);
      StripLast(s + shorter, back[|back| - 1]);
      assert front + s + back == (s + shorter) + [back[|back| - 1]] && front + s + shorter == s + shorter;
    } else {
      assert front + s + back == s;
    }
  }

  lemma {:induction false} StripLast(s: string, c: char)
    requires IsSpace(c)
    ensures Strip(s + [c]) == Strip(s)
  {
    if s != "" && IsSpace(s[0]) {
      assert (s + [c])[1..] == s[1..] + [c];
      StripLast(s[1..], c);
    } else {
      assert (s + [c])[..|s|] == s;
      assert s == "" ==> ([c])[1..] == "";
    }
  }

  predicate StartsWith(s: string, prefix: string) { prefix <= s }

  /** `split("\n")`. */
  function Lines(s: string): (r: seq<string>)
    ensures r != []
  {
    if s == "" then [""]
    else
      var rest := Lines(s[1..]);
      if s[0] == '\n' then [""] + rest else [[s[0]] + rest[0]] + rest[1..]
  }

  /** `"\n".join(lines)`. */
  function Joined(lines: seq<string>): string
    requires lines != []
  {
    if |lines| == 1 then lines[0] else lines[0] + "\n" + Joined(lines[1..])
  }

  /** The lines are the pieces between the line breaks: none has a break inside, and joining them restores the text. */
  lemma {:induction false} LinesSpec(s: string)
    ensures Joined(Lines(s)) == s
    ensures forall line | line in Lines(s) :: '\n' !in line
  {
    if s != "" {
      var rest := Lines(s[1..]);
      LinesSpec(s[1..]);
      if s[0] == '\n' {
        assert Lines(s)[1..] == rest;
        assert Lines(s)[0] + "\n" + Joined(rest) == s;
      } else {
        var first := [s[0]] + rest[0];
        assert Lines(s)[1..] == rest[1..] && Lines(s)[0] == first;
        assert s == [s[0]] + s[1..];
        assert rest[0] in rest;
        if |rest| > 1 { assert [s[0]] + (rest[0] + "\n" + Joined(rest[1..])) == first + "\n" + Joined(rest[1..]); }
        forall line | line in Lines(s) ensures '\n' !in line { assert line == first || line in rest; }
      }
    }
  }
}
