/** The string operations that the stream client and the index share: splitting at a
    separator, joining, and trimming both ends. What counts as white space is a parameter,
    because JavaScript's `trim` and Python's `strip` disagree on a few characters. */
module Text {

  type Space = char -> bool

  function TrimLeft(space: Space, s: string): (r: string)
    ensures r <= s || |r| < |s|
  {
    if s != "" && space(s[0]) then TrimLeft(space, s[1..]) else s
  }

  function TrimRight(space: Space, s: string): (r: string)
    ensures r <= s
  {
    if s != "" && space(s[|s| - 1]) then TrimRight(space, s[..|s| - 1]) else s
  }

  function Trim(space: Space, s: string): string {
    TrimRight(space, TrimLeft(space, s))
  }

  /** No white space at either end. */
  predicate Trimmed(space: Space, s: string) {
    s == "" || (!space(s[0]) && !space(s[|s| - 1]))
  }

  predicate Blank(space: Space, s: string) {
    forall i | 0 <= i < |s| :: space(s[i])
  }

  lemma {:induction false} TrimLeftStops(space: Space, s: string)
    ensures var r := TrimLeft(space, s); r == "" || !space(r[0])
    ensures exists k | 0 <= k <= |s| :: TrimLeft(space, s) == s[k..] && Blank(space, s[..k])
    decreases |s|
  {
    if s != "" && space(s[0]) {
      TrimLeftStops(space, s[1..]);
      var k :| 0 <= k <= |s[1..]| && TrimLeft(space, s[1..]) == s[1..][k..] && Blank(space, s[1..][..k]);
      BlankFirst(space, s, k);
    } else {
      assert s[0..] == s && Blank(space, s[..0]);
    }
  }

  lemma BlankFirst(space: Space, s: string, k: nat)
    requires k < |s| && space(s[0]) && Blank(space, s[1..][..k])
    ensures s[1..][k..] == s[k + 1..] && Blank(space, s[..k + 1])
  {
    assert s[..k + 1] == [s[0]] + s[1..][..k];
  }

  lemma {:induction false} TrimRightStops(space: Space, s: string)
    ensures var r := TrimRight(space, s); r == "" || !space(r[|r| - 1])
    ensures Blank(space, s[|TrimRight(space, s)|..])
    decreases |s|
  {
    if s != "" && space(s[|s| - 1]) {
      var t := s[..|s| - 1];
      TrimRightStops(space, t);
      var n := |TrimRight(space, t)|;
      assert s[n..] == t[n..] + [s[|s| - 1]];
    }
  }

  /** Trimming always yields a trimmed string, and leaves exactly the trimmed strings alone. */
  lemma TrimIsTrimmed(space: Space, s: string)
    ensures Trimmed(space, Trim(space, s))
    ensures Trim(space, s) == s <==> Trimmed(space, s)
  {
    TrimLeftStops(space, s);
    TrimRightStops(space, TrimLeft(space, s));
  }

  lemma SliceParts(s: string, a: nat, n: nat)
    requires a + n <= |s|
    ensures s[a..][..n] == s[a..a + n] && s[a..][n..] == s[a + n..]
  {
  }

  /** What trimming leaves is a slice, and white space is all it drops. */
  lemma TrimIsSlice(space: Space, s: string) returns (a: nat, b: nat)
    ensures a <= b <= |s| && Trim(space, s) == s[a..b]
    ensures Blank(space, s[..a]) && Blank(space, s[b..])
  {
    hide TrimLeft, TrimRight, Blank;
    TrimLeftStops(space, s);
    a :| a <= |s| && TrimLeft(space, s) == s[a..] && Blank(space, s[..a]);
    TrimRightStops(space, s[a..]);
    var n := |TrimRight(space, s[a..])|;
    b := a + n;
    SliceParts(s, a, n);
  }

  /** Trimming adds no character. */
  lemma TrimKeepsOut(space: Space, s: string, c: char)
    requires c !in s
    ensures c !in Trim(space, s)
  {
    var a, b := TrimIsSlice(space, s);
  }

  /** Padding does not change what trimming returns. */
  lemma {:induction false} TrimPadded(space: Space, left: string, s: string, right: string)
    requires Blank(space, left) && Blank(space, right) && Trimmed(space, s)
    ensures Trim(space, left + s + right) == s
    decreases |left| + |right|
  {
    if left != "" {
      assert (left + s + right)[1..] == left[1..] + s + right;
      TrimPadded(space, left[1..], s, right);
    } else if right != "" {
      var cut := right[..|right| - 1];
      TrimPadded(space, left, s, cut);
      assert left + s + right == s + right && left + s + cut == s + cut;
      if s == "" {
        assert s + right == right;
        BlankTrims(space, right);
      } else {
        assert TrimLeft(space, s + right) == s + right && TrimLeft(space, s + cut) == s + cut;
        assert (s + right)[..|s + right| - 1] == s + cut;
      }
    } else {
      assert left + s + right == s;
      TrimIsTrimmed(space, s);
    }
  }

  lemma {:induction false} BlankTrims(space: Space, s: string)
    requires Blank(space, s)
    ensures TrimLeft(space, s) == ""
    decreases |s|
  {
    if s != "" { BlankTrims(space, s[1..]); }
  }

  /** `s.split(sep)`: always at least one piece. */
  function Split(s: string, sep: char): (r: seq<string>)
    ensures |r| > 0
  {
    if s == "" then [""]
    else
      var rest := Split(s[1..], sep);
      if s[0] == sep then [""] + rest else [[s[0]] + rest[0]] + rest[1..]
  }

  /** `sep.join(parts)`. */
  function Join(parts: seq<string>, sep: string): string {
    if |parts| == 0 then ""
    else if |parts| == 1 then parts[0]
    else parts[0] + sep + Join(parts[1..], sep)
  }

  /** What joining means: the separator stands between the pieces and nowhere else. */
  lemma {:induction false} JoinSnoc(parts: seq<string>, last: string, sep: string)
    ensures Join([], sep) == "" && Join([last], sep) == last
    ensures parts != [] ==> Join(parts + [last], sep) == Join(parts, sep) + sep + last
    decreases |parts|
  {
    if parts != [] {
      assert parts + [last] == [parts[0]] + (parts[1..] + [last]);
      assert parts == [parts[0]] + parts[1..];
      JoinSnoc(parts[1..], last, sep);
      if |parts| > 1 {
        assert parts[0] + sep + (Join(parts[1..], sep) + sep + last) ==
            (parts[0] + sep + Join(parts[1..], sep)) + sep + last;
      }
    }
  }

  lemma {:induction false} SplitHead(head: string, sep: char, tail: string)
    requires sep !in head
    ensures Split(head + [sep] + tail, sep) == [head] + Split(tail, sep)
    decreases |head|
  {
    var s := head + [sep] + tail;
    if head == "" {
      assert s[1..] == tail;
    } else {
      assert s[1..] == head[1..] + [sep] + tail;
      SplitHead(head[1..], sep, tail);
      assert [head[0]] + head[1..] == head;
    }
  }

  lemma {:induction false} SplitNone(s: string, sep: char)
    requires sep !in s
    ensures Split(s, sep) == [s]
    decreases |s|
  {
    if s != "" {
      SplitNone(s[1..], sep);
      assert [s[0]] + s[1..] == s;
    }
  }

  /** Splitting undoes joining on separator-free pieces. */
  lemma {:induction false} SplitJoin(parts: seq<string>, sep: char)
    requires |parts| > 0 && forall p | p in parts :: sep !in p
    ensures Split(Join(parts, [sep]), sep) == parts
    decreases |parts|
  {
    if |parts| == 1 {
      SplitNone(parts[0], sep);
    } else {
      SplitJoin(parts[1..], sep);
      SplitHead(parts[0], sep, Join(parts[1..], [sep]));
    }
  }

  /** Joining undoes splitting, and no piece holds the separator. */
  lemma {:induction false} JoinSplit(s: string, sep: char)
    ensures Join(Split(s, sep), [sep]) == s
    ensures forall p | p in Split(s, sep) :: sep !in p
    decreases |s|
  {
    if s != "" {
      JoinSplit(s[1..], sep);
      var rest := Split(s[1..], sep);
      var r := Split(s, sep);
      assert [s[0]] + s[1..] == s;
      if s[0] == sep {
        assert r[1..] == rest;
      } else {
        assert r[1..] == rest[1..];
        if |r| > 1 { assert [s[0]] + rest[0] + [sep] + Join(rest[1..], [sep]) == [s[0]] + Join(rest, [sep]); }
      }
    }
  }
}

/** Python's idea of white space. */
module PythonText {
  import opened Text

  /** The line breaks of Python's `splitlines`. */
  predicate IsBreak(c: char) {
    c in {'\n', '\r', '\U{b}', '\U{c}', '\U{1c}', '\U{1d}', '\U{1e}', '\U{85}', '\U{2028}', '\U{2029}'}
  }

  /** Python's `isspace`, which is also `\s`. */
  predicate PySpace(c: char) {
    || IsBreak(c) || '\U{2000}' <= c <= '\U{200a}'
    || c in {'\t', ' ', '\U{1f}', '\U{a0}', '\U{1680}', '\U{202f}', '\U{205f}', '\U{3000}'}
  }

  /** The characters concerned, by number. */
  lemma PySpaceIs(c: char)
    ensures IsBreak(c) <==> c as int in {10, 11, 12, 13, 28, 29, 30, 133, 8232, 8233}
    ensures PySpace(c) <==>
      c as int in {9, 10, 11, 12, 13, 28, 29, 30, 31, 32, 133, 160, 5760, 8192, 8193, 8194, 8195, 8196, 8197, 8198,
                   8199, 8200, 8201, 8202, 8232, 8233, 8239, 8287, 12288}
  {
  }

  lemma PlainCharacters()
    ensures PySpace(' ') && PySpace('\n') && IsBreak('\n') && IsBreak('\r')
    ensures !PySpace('-') && !PySpace(':') && !PySpace('[') && !PySpace(']') && !PySpace('#') && !PySpace(',')
  {
  }

  function Strip(s: string): string {
    Trim(PySpace, s)
  }

  /** `lower()`, on the letters A to Z. */
  function LowerChar(c: char): char {
    if 'A' <= c <= 'Z' then c - 'A' + 'a' else c
  }

  function Lower(s: string): string {
    seq(|s|, i requires 0 <= i < |s| => LowerChar(s[i]))
  }

  /** Lowering moves the characters 65 to 90, A to Z, up by 32 and leaves every other one alone. */
  lemma LowerIs(s: string, i: nat)
    requires i < |s|
    ensures |Lower(s)| == |s|
    ensures 65 <= s[i] as int <= 90 ==> Lower(s)[i] as int == s[i] as int + 32
    ensures s[i] as int < 65 || s[i] as int > 90 ==> Lower(s)[i] == s[i]
  {
  }

  /** What reading a file in text mode makes of its text: every "\r\n" and every other "\r" is
      read as "\n". Writing changes nothing. */
  function AsRead(s: string): string
    decreases |s|
  {
    if s == "" then ""
    else if s[0] != '\r' then [s[0]] + AsRead(s[1..])
    else "\n" + AsRead(if |s| > 1 && s[1] == '\n' then s[2..] else s[1..])
  }

  lemma {:induction false} AsReadHasNoReturn(s: string)
    ensures '\r' !in AsRead(s)
    decreases |s|
  {
    if s != "" {
      AsReadHasNoReturn(if s[0] == '\r' && |s| > 1 && s[1] == '\n' then s[2..] else s[1..]);
    }
  }

  lemma {:induction false} AsReadAfter(a: string, b: string)
    requires '\r' !in a
    ensures AsRead(a + b) == a + AsRead(b)
    decreases |a|
  {
    if a == "" {
      assert a + b == b;
    } else {
      assert (a + b)[1..] == a[1..] + b;
      AsReadAfter(a[1..], b);
    }
  }

  /** Text without carriage returns is read as it is. */
  lemma AsReadSame(s: string)
    requires '\r' !in s
    ensures AsRead(s) == s
  {
    AsReadAfter(s, "");
    assert s + "" == s;
  }

  lemma ReturnIsRead(b: string)
    ensures AsRead("\r\n" + b) == "\n" + AsRead(b)
    ensures b == "" || b[0] != '\n' ==> AsRead("\r" + b) == "\n" + AsRead(b)
  {
    assert ("\r\n" + b)[2..] == b && ("\r" + b)[1..] == b;
  }

  /** Both forms of a line end are read as a newline, and nothing else changes. */
  lemma LineEndIsRead(a: string, b: string)
    requires '\r' !in a
    ensures AsRead(a + ("\r\n" + b)) == a + ("\n" + AsRead(b))
    ensures b == "" || b[0] != '\n' ==> AsRead(a + ("\r" + b)) == a + ("\n" + AsRead(b))
  {
    hide AsRead;
    AsReadAfter(a, "\r\n" + b);
    AsReadAfter(a, "\r" + b);
    ReturnIsRead(b);
  }
}
