// The line splitter of the desktop host: however the input is cut into chunks, the same lines come out, and lines
// that were ended by LF or CRLF come back as they were written. What is behind the last line end waits for more.
module LineSplitter {
  import opened Sequences

  // White space that String.prototype.trim removes.
  predicate IsWhite(c: char) {
    '\t' <= c <= '\r' || c == ' ' || c == '\U{00A0}' || c == '\U{1680}' || '\U{2000}' <= c <= '\U{200A}'
    || c == '\U{2028}' || c == '\U{2029}' || c == '\U{202F}' || c == '\U{205F}' || c == '\U{3000}' || c == '\U{FEFF}'
  }

  // line.trim() is not empty
  predicate HasText(line: string) {
    line != "" && (!IsWhite(line[0]) || HasText(line[1..]))
  }

  const WHITE: set<int> := {
    9, 10, 11, 12, 13, 32, 160, 0x1680, 0x2000, 0x2001, 0x2002, 0x2003, 0x2004, 0x2005, 0x2006, 0x2007, 0x2008, 0x2009, 0x200A,
    0x2028, 0x2029, 0x202F, 0x205F, 0x3000, 0xFEFF }

  // The white space and line ends of ECMAScript, by their code points.
  lemma WhiteExactly(c: char)
    ensures IsWhite(c) <==> c as int in WHITE
  {
  }

  lemma {:induction false} HasTextExactly(line: string)
    ensures HasText(line) <==> exists i :: 0 <= i < |line| && line[i] as int !in WHITE
  {
    if line != "" {
      WhiteExactly(line[0]);
      HasTextExactly(line[1..]);
      assert forall i :: 0 <= i < |line[1..]| ==> line[1..][i] == line[i + 1];
      assert forall i :: 1 <= i < |line| ==> line[i] == line[1..][i - 1];
    }
  }

  // line.replace(/\r$/, "")
  function StripCR(line: string): string {
    if line != "" && line[|line| - 1] == '\r' then line[..|line| - 1] else line
  }

  // text.indexOf("\n"), or |text| when there is none
  function NewlineAt(text: string): (i: nat)
    ensures i <= |text|
    ensures i < |text| ==> text[i] == '\n'
    ensures forall j :: 0 <= j < i ==> text[j] != '\n'
  {
    if text == "" || text[0] == '\n' then 0 else 1 + NewlineAt(text[1..])
  }

  // What one complete line delivers: itself, or nothing when it is blank.
  function Deliver(raw: string): seq<string> {
    var line := StripCR(raw);
    if HasText(line) then [line] else []
  }

  // The lines that text completes, as delivered.
  function Lines(text: string): seq<string> {
    var i := NewlineAt(text);
    if i == |text| then [] else Deliver(text[..i]) + Lines(text[i + 1..])
  }

  // What is left behind the last newline.
  function Rest(text: string): (rest: string)
    ensures '\n' !in rest && |rest| <= |text|
  {
    var i := NewlineAt(text);
    if i == |text| then text else Rest(text[i + 1..])
  }

  lemma LinesStep(text: string)
    requires NewlineAt(text) < |text|
    ensures var tail := text[NewlineAt(text) + 1..];
            Lines(text) == Deliver(text[..NewlineAt(text)]) + Lines(tail) && Rest(text) == Rest(tail)
  {
  }

  lemma Regroup<T>(a: seq<T>, b: seq<T>, c: seq<T>)
    ensures a + (b + c) == (a + b) + c
  {
  }

  class Splitter {
    var buffer: string

    constructor ()
      ensures buffer == ""
    {
      buffer := "";
    }

    method Push(chunk: string) returns (delivered: seq<string>)
      modifies this
      ensures delivered == Lines(old(buffer) + chunk)
      ensures buffer == Rest(old(buffer) + chunk)
    {
      delivered := [];
      buffer := buffer + chunk;
      ghost var whole := buffer;
      var index := NewlineAt(buffer);
      while index != |buffer|
        invariant index == NewlineAt(buffer)
        invariant Pending(whole, delivered, buffer)
        decreases |buffer|
      {
        OneMore(whole, delivered, buffer);
        var line := StripCR(buffer[..index]);
        buffer := buffer[index + 1..];
        if HasText(line) {
          delivered := delivered + [line];
        }
        index := NewlineAt(buffer);
      }
      NoLines(buffer);
    }
  }

  // Some lines of the whole text are delivered, the others are still in the buffer.
  ghost predicate Pending(whole: string, delivered: seq<string>, buffer: string) {
    Lines(whole) == delivered + Lines(buffer) && Rest(whole) == Rest(buffer)
  }

  lemma OneMore(whole: string, delivered: seq<string>, buffer: string)
    requires Pending(whole, delivered, buffer) && NewlineAt(buffer) < |buffer|
    ensures var line := StripCR(buffer[..NewlineAt(buffer)]);
            Pending(whole, if HasText(line) then delivered + [line] else delivered, buffer[NewlineAt(buffer) + 1..])
  {
    LinesStep(buffer);
    DeliverTo(delivered, buffer[..NewlineAt(buffer)]);
    Regroup(delivered, Deliver(buffer[..NewlineAt(buffer)]), Lines(buffer[NewlineAt(buffer) + 1..]));
  }

  lemma DeliverTo(delivered: seq<string>, raw: string)
    ensures delivered + Deliver(raw) == if HasText(StripCR(raw)) then delivered + [StripCR(raw)] else delivered
  {
  }

  lemma NoLines(text: string)
    requires NewlineAt(text) == |text|
    ensures Lines(text) == [] && Rest(text) == text
  {
  }

  lemma {:induction false} FirstNewline(a: string, b: string)
    ensures NewlineAt(a + b) == if NewlineAt(a) < |a| then NewlineAt(a) else |a| + NewlineAt(b)
  {
    if a == "" {
      assert a + b == b;
    } else {
      assert (a + b)[1..] == a[1..] + b;
      FirstNewline(a[1..], b);
    }
  }

  // Splitting a text at any place loses, repeats and alters nothing.
  lemma {:induction false} SplitAnywhere(a: string, b: string)
    ensures Lines(a + b) == Lines(a) + Lines(Rest(a) + b)
    ensures Rest(a + b) == Rest(Rest(a) + b)
    decreases |a|
  {
    if NewlineAt(a) < |a| {
      SplitAnywhere(a[NewlineAt(a) + 1..], b);
      SplitFirst(a, a[NewlineAt(a) + 1..], b);
    } else {
      NoLines(a);
    }
  }

  lemma SplitFirst(a: string, tail: string, b: string)
    requires NewlineAt(a) < |a| && tail == a[NewlineAt(a) + 1..]
    requires Lines(tail + b) == Lines(tail) + Lines(Rest(tail) + b) && Rest(tail + b) == Rest(Rest(tail) + b)
    ensures Lines(a + b) == Lines(a) + Lines(Rest(a) + b) && Rest(a + b) == Rest(Rest(a) + b)
  {
    CutLine(a, b);
    LinesStep(a);
    Glue(Deliver(a[..NewlineAt(a)]), Lines(a), Lines(a + b), Lines(tail), Lines(tail + b), Lines(Rest(tail) + b));
  }

  // A cut behind the first line is a cut of what follows it.
  lemma Glue(head: seq<string>, a: seq<string>, ab: seq<string>, tail: seq<string>, tailb: seq<string>, behind: seq<string>)
    requires a == head + tail && ab == head + tailb && tailb == tail + behind
    ensures ab == a + behind
  {
  }

  // The first line of a text is the first line of any continuation.
  lemma CutLine(a: string, b: string)
    requires NewlineAt(a) < |a|
    ensures var tail := a[NewlineAt(a) + 1..];
            Lines(a + b) == Deliver(a[..NewlineAt(a)]) + Lines(tail + b) && Rest(a + b) == Rest(tail + b)
  {
    var i := NewlineAt(a);
    FirstNewline(a, b);
    assert (a + b)[..i] == a[..i];
    assert (a + b)[i + 1..] == a[i + 1..] + b;
  }

  // The lines a fresh splitter delivers for a sequence of chunks, and what it then holds.
  function PushAll(chunks: seq<string>): (seq<string>, string) {
    if chunks == [] then ([], "")
    else
      var (lines, buffer) := PushAll(chunks[..|chunks| - 1]);
      var text := buffer + chunks[|chunks| - 1];
      (lines + Lines(text), Rest(text))
  }

  lemma ConcatLast(front: seq<string>, last: string)
    ensures Concat(front + [last]) == Concat(front) + last
  {
    ConcatAppend(front, [last]);
    assert [last][1..] == [];
    assert Concat([last]) == last + Concat([]);
    assert last + [] == last;
  }

  // Chunk independence: only the concatenation matters.
  lemma ChunksDoNotMatter(chunks: seq<string>)
    ensures PushAll(chunks) == (Lines(Concat(chunks)), Rest(Concat(chunks)))
  {
    AllPushed(chunks, Concat(chunks));
  }

  lemma {:induction false} AllPushed(chunks: seq<string>, whole: string)
    requires whole == Concat(chunks)
    ensures PushAll(chunks) == (Lines(whole), Rest(whole))
  {
    if chunks != [] {
      var front, last := chunks[..|chunks| - 1], chunks[|chunks| - 1];
      var before := Concat(front);
      AllPushed(front, before);
      assert chunks == front + [last];
      ConcatLast(front, last);
      PushLast(chunks, before, last);
    }
  }

  // One more chunk behind a text.
  lemma PushLast(chunks: seq<string>, whole: string, last: string)
    requires chunks != [] && last == chunks[|chunks| - 1] && PushAll(chunks[..|chunks| - 1]) == (Lines(whole), Rest(whole))
    ensures PushAll(chunks) == (Lines(whole + last), Rest(whole + last))
  {
    SplitAnywhere(whole, last);
  }

  // Every delivered line is a complete one: text without a newline, not blank.
  lemma {:induction false} DeliveredAreLines(text: string)
    ensures forall line :: line in Lines(text) ==> '\n' !in line && HasText(line)
    decreases |text|
  {
    var i := NewlineAt(text);
    if i < |text| {
      DeliveredAreLines(text[i + 1..]);
      LinesStep(text);
      DeliveredIsLine(text[..i]);
    }
  }

  lemma DeliveredIsLine(raw: string)
    requires '\n' !in raw
    ensures forall line :: line in Deliver(raw) ==> '\n' !in line && HasText(line)
  {
  }

  // Complete lines written out with either line end come back, blank ones left out.
  function Written(lines: seq<string>, end: string): string {
    if lines == [] then "" else lines[0] + end + Written(lines[1..], end)
  }

  predicate CarriageFree(line: string) {
    '\n' !in line && (line != "" ==> line[|line| - 1] != '\r')
  }

  lemma {:induction false} WrittenLinesReturn(lines: seq<string>, end: string)
    requires end == "\n" || end == "\r\n"
    requires forall i :: 0 <= i < |lines| ==> CarriageFree(lines[i])
    ensures Lines(Written(lines, end)) == Filter(HasText, lines)
    ensures Rest(Written(lines, end)) == ""
  {
    if lines != [] {
      WrittenLinesReturn(lines[1..], end);
      FirstWritten(lines[0], end, Written(lines[1..], end));
    }
  }

  lemma FirstWritten(line: string, end: string, tail: string)
    requires (end == "\n" || end == "\r\n") && CarriageFree(line)
    ensures Lines(line + end + tail) == (if HasText(line) then [line] else []) + Lines(tail)
    ensures Rest(line + end + tail) == Rest(tail)
  {
    var head := if end == "\n" then line else line + "\r";
    var text := line + end + tail;
    WrittenParts(line, end, tail, head);
    NoNewline(head);
    FirstNewline(head, "\n" + tail);
    assert NewlineAt("\n" + tail) == 0;
    LinesStep(text);
  }

  lemma WrittenParts(line: string, end: string, tail: string, head: string)
    requires (end == "\n" && head == line && CarriageFree(line)) || (end == "\r\n" && head == line + "\r")
    ensures var text := line + end + tail;
            text == head + ("\n" + tail) && text[..|head|] == head && text[|head| + 1..] == tail && StripCR(head) == line
  {
    if end == "\r\n" {
      assert end == "\r" + "\n";
    }
  }

  lemma {:induction false} NoNewline(s: string)
    requires '\n' !in s
    ensures NewlineAt(s) == |s|
  {
    assert forall j :: 0 <= j < |s| ==> s[j] in s;
  }
}
