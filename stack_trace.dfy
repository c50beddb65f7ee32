/**
 * `o.cleanStackTrace(error)` over the text of an error's `stack`: drop the
 * header line that some engines repeat, split into lines, and when the
 * file name of ospec itself is known, return the first line that does not
 * mention it.
 */
module StackTrace {
  import opened Common

  /** Position of the first `c` in `s`, or `|s|` when there is none. */
  function IndexOfChar(s: string, c: char): (i: nat)
    ensures i <= |s|
    ensures i < |s| ==> s[i] == c
    ensures forall j :: 0 <= j < i ==> s[j] != c
  {
    if s == [] then 0 else if s[0] == c then 0 else 1 + IndexOfChar(s[1..], c)
  }

  /** A line that ended in `"\r\n"` loses its `'\r'`. */
  function StripCR(line: string): string {
    if |line| > 0 && line[|line| - 1] == '\r' then line[..|line| - 1] else line
  }

  /** `s.split(/\r?\n/)` */
  function SplitLines(s: string): (r: seq<string>)
    ensures |r| >= 1
    ensures forall k :: 0 <= k < |r| ==> '\n' !in r[k]
    decreases |s|
  {
    var i := IndexOfChar(s, '\n');
    if i == |s| then [s] else [StripCR(s[..i])] + SplitLines(s[i + 1..])
  }

  /** A piece of a text with no `'\r'` has none either, and keeps its last character. */
  lemma NoCR(s: string, a: nat, b: nat)
    requires a <= b <= |s| && '\r' !in s
    ensures '\r' !in s[a..b] && StripCR(s[a..b]) == s[a..b]
  {
    var piece := s[a..b];
    forall k | 0 <= k < |piece| ensures piece[k] != '\r' {
      assert piece[k] == s[a + k];
    }
  }

  /** With no `'\r'` in the text, joining its lines with `"\n"` gives the text back. */
  lemma {:induction false} JoinSplitLines(s: string)
    requires '\r' !in s
    ensures Join(SplitLines(s), "\n") == s
    decreases |s|
  {
    var i := IndexOfChar(s, '\n');
    if i < |s| {
      var rest := s[i + 1..];
      NoCR(s, i + 1, |s|);
      NoCR(s, 0, i);
      assert rest == s[i + 1..|s|];
      JoinSplitLines(rest);
      var parts := SplitLines(s);
      assert parts == [s[..i]] + SplitLines(rest);
      assert parts[1..] == SplitLines(rest);
      assert Join(parts, "\n") == s[..i] + "\n" + rest;
      assert s == s[..i] + "\n" + rest;
    }
  }

  /** Lines with no line break in them split back out of their `"\n"`-joined text. */
  lemma {:induction false} SplitJoinLines(parts: seq<string>)
    requires |parts| >= 1
    requires forall k :: 0 <= k < |parts| ==> '\n' !in parts[k] && '\r' !in parts[k]
    ensures SplitLines(Join(parts, "\n")) == parts
  {
    if |parts| == 1 {
      assert IndexOfChar(parts[0], '\n') == |parts[0]|;
    } else {
      var p := parts[0];
      var rest := Join(parts[1..], "\n");
      var s := p + "\n" + rest;
      assert Join(parts, "\n") == s;
      SplitJoinLines(parts[1..]);
      assert IndexOfChar(s, '\n') == |p| by {
        assert s[|p|] == '\n';
        assert forall j :: 0 <= j < |p| ==> s[j] == p[j];
      }
      assert s[..|p|] == p && s[|p| + 1..] == rest;
      assert StripCR(p) == p by {
        if |p| > 0 {
          assert p[|p| - 1] in p;
        }
      }
    }
  }

  /** `error.message ? error.name + ": " + error.message : error.name` (an empty message is falsy). */
  function Header(name: string, message: string): string {
    if message != "" then name + ": " + message else name
  }

  /**
   * The frames of a stack: when the stack starts with the header, the text
   * after it, split into lines with the first (the rest of the header line)
   * dropped; otherwise every line.
   */
  function Frames(stack: string, name: string, message: string): seq<string> {
    var header := Header(name, message);
    if StartsWith(stack, header) then SplitLines(stack[|header|..])[1..] else SplitLines(stack)
  }

  /**
   * A stack that repeats the header on its first line yields exactly the
   * lines after it, while one that does not yields all of its lines.
   */
  lemma HeaderDropped(name: string, message: string, rest: string)
    ensures Frames(Header(name, message) + "\n" + rest, name, message) == SplitLines(rest)
  {
    var h := Header(name, message);
    var stack := h + "\n" + rest;
    assert stack[..|h|] == h;
    var after := stack[|h|..];
    assert after == "\n" + rest;
    assert IndexOfChar(after, '\n') == 0;
    assert after[1..] == rest;
    assert SplitLines(after) == [""] + SplitLines(rest);
  }

  /** Without the header and without `'\r'`, the joined frames are the stack itself. */
  lemma NoHeader(stack: string, name: string, message: string)
    requires !StartsWith(stack, Header(name, message)) && '\r' !in stack
    ensures Join(Frames(stack, name, message), "\n") == stack
  {
    JoinSplitLines(stack);
  }

  /**
   * `o.cleanStackTrace(error)`, with `ospecFile` the name ospec found for its
   * own source file. The result `None` is `undefined`, which the function
   * returns when every frame mentions ospec's file.
   */
  method CleanStackTrace(stack: Option<string>, name: string, message: string, ospecFile: Option<string>)
    returns (r: Option<string>)
    ensures stack.None? ==> r == Some("")
    ensures stack.Some? && ospecFile.None? ==> r == Some(Join(Frames(stack.value, name, message), "\n"))
    ensures stack.Some? && ospecFile.Some? ==>
      var frames := Frames(stack.value, name, message);
      && (r.None? <==> forall k :: 0 <= k < |frames| ==> Contains(frames[k], ospecFile.value))
      && (r.Some? ==> exists i :: 0 <= i < |frames| && frames[i] == r.value && !Contains(r.value, ospecFile.value)
                                  && forall k :: 0 <= k < i ==> Contains(frames[k], ospecFile.value))
  {
    if stack.None? {
      return Some("");
    }
    var frames := Frames(stack.value, name, message);
    if ospecFile.None? {
      return Some(Join(frames, "\n"));
    }
    var i := 0;
    while i < |frames| && Contains(frames[i], ospecFile.value)
      invariant 0 <= i <= |frames|
      invariant forall k :: 0 <= k < i ==> Contains(frames[k], ospecFile.value)
    {
      i := i + 1;
    }
    r := if i < |frames| then Some(frames[i]) else None;
  }
}
