/** The Server-Sent Events a job's response carries, and what a client makes of them
    (internal/handlers/route.go:60-147, 420-422; internal/sse/hub.go:41-112). */
module EventStream {

  datatype Event = Event(name: string, data: string)

  function Written(e: Event): string {
    "event: " + e.name + "\ndata: " + e.data + "\n\n"
  }

  // ---- reading a stream, as in sections 9.2.5 and 9.2.6 of the WHATWG HTML Standard

  /** The end of the first line, its terminator not included; none when no line is complete. */
  function LineEnd(text: string): (n: nat)
    ensures n <= |text|
    ensures n < |text| ==> text[n] == '\n' || text[n] == '\r'
  {
    if text == "" || text[0] == '\n' || text[0] == '\r' then 0 else 1 + LineEnd(text[1..])
  }

  /** What follows the first line: CRLF, LF and CR end lines. */
  function AfterLine(text: string): (rest: string)
    requires LineEnd(text) < |text|
    ensures |rest| < |text| - LineEnd(text)
  {
    var n := LineEnd(text);
    if text[n] == '\r' && n + 1 < |text| && text[n + 1] == '\n' then text[n + 2..] else text[n + 1..]
  }

  /** The event type and data buffers. */
  datatype Buffers = Buffers(name: string, data: string)

  const EMPTY := Buffers("", "")

  function Field(b: Buffers, name: string, value: string): Buffers {
    if name == "event" then b.(name := value)
    else if name == "data" then b.(data := b.data + value + "\n")
    else b
  }

  function ColonAt(line: string): (n: nat)
    ensures n <= |line| && (n < |line| ==> line[n] == ':')
  {
    if line == "" || line[0] == ':' then 0 else 1 + ColonAt(line[1..])
  }

  /** A line that is not blank: a comment, or a field with its value, less one leading space. */
  function Line(b: Buffers, line: string): Buffers {
    var n := ColonAt(line);
    if n == |line| then Field(b, line, "")
    else if n == 0 then b
    else Field(b, line[..n], if n + 1 < |line| && line[n + 1] == ' ' then line[n + 2..] else line[n + 1..])
  }

  /** A blank line dispatches what the buffers hold, if there is data. */
  function Dispatched(b: Buffers): seq<Event> {
    if b.data == "" then []
    else [Event(if b.name == "" then "message" else b.name,
                if b.data[|b.data| - 1] == '\n' then b.data[..|b.data| - 1] else b.data)]
  }

  /** The events of a stream; what follows the last blank line is dropped. */
  function Parse(text: string, b: Buffers): seq<Event>
    decreases |text|
  {
    var n := LineEnd(text);
    if n == |text| then []
    else if n == 0 then Dispatched(b) + Parse(AfterLine(text), EMPTY)
    else Parse(AfterLine(text), Line(b, text[..n]))
  }

  predicate OneLine(s: string) {
    '\n' !in s && '\r' !in s
  }

  lemma {:induction false} LineIs(line: string, rest: string)
    requires OneLine(line)
    ensures LineEnd(line + "\n" + rest) == |line| && AfterLine(line + "\n" + rest) == rest
  {
    var text := line + "\n" + rest;
    if line != "" {
      LineIs(line[1..], rest);
      assert text[1..] == line[1..] + "\n" + rest;
    }
  }

  lemma {:induction false} ColonIs(name: string, value: string)
    requires ':' !in name
    ensures ColonAt(name + ":" + value) == |name|
  {
    var line := name + ":" + value;
    if name != "" {
      ColonIs(name[1..], value);
      assert line[1..] == name[1..] + ":" + value;
    }
  }

  lemma FieldLine(b: Buffers, name: string, value: string)
    requires ':' !in name && name != ""
    ensures Line(b, name + ": " + value) == Field(b, name, value)
  {
    var line := name + ": " + value;
    assert line == name + ":" + (" " + value);
    ColonIs(name, " " + value);
    assert line[..|name|] == name && line[|name| + 2..] == value;
  }

  lemma ParseLine(b: Buffers, line: string, rest: string)
    requires OneLine(line) && line != ""
    ensures Parse(line + "\n" + rest, b) == Parse(rest, Line(b, line))
  {
    hide Line, LineEnd, AfterLine;
    LineIs(line, rest);
    assert (line + "\n" + rest)[..|line|] == line;
  }

  lemma ParseBlank(b: Buffers, rest: string)
    ensures Parse("\n" + rest, b) == Dispatched(b) + Parse(rest, EMPTY)
  {
    hide Line, LineEnd, AfterLine, Dispatched;
    LineIs("", rest);
    assert "" + "\n" + rest == "\n" + rest;
  }

  lemma LabelsOneLine(value: string)
    requires OneLine(value)
    ensures OneLine("event: " + value) && OneLine("data: " + value)
  {
    assert forall i :: 0 <= i < 7 ==> "event: "[i] != '\n' && "event: "[i] != '\r';
    assert forall i :: 0 <= i < 6 ==> "data: "[i] != '\n' && "data: "[i] != '\r';
  }

  /** An event's two fields fill the buffers. */
  lemma FieldsRead(name: string, value: string, rest: string)
    requires OneLine(name) && OneLine(value)
    ensures Parse("event: " + name + "\n" + ("data: " + value + "\n" + rest), EMPTY) == Parse(rest, Buffers(name, value + "\n"))
  {
    var first, second := "event: " + name, "data: " + value;
    FieldLine(EMPTY, "event", name);
    FieldLine(Buffers(name, ""), "data", value);
    assert "" + value + "\n" == value + "\n";
    assert "event" + ": " == "event: " && "data" + ": " == "data: ";
    assert first[0] == 'e' && second[0] == 'd';
    LabelsOneLine(name);
    LabelsOneLine(value);
    assert Line(EMPTY, first) == Buffers(name, "") && Line(Buffers(name, ""), second) == Buffers(name, value + "\n");
    hide *;
    ParseLine(EMPTY, first, second + "\n" + rest);
    ParseLine(Buffers(name, ""), second, rest);
  }

  /** A written event is read back, and reading goes on behind it. */
  lemma WrittenIsRead(e: Event, rest: string)
    requires e.name != "" && OneLine(e.name) && OneLine(e.data)
    ensures Parse(Written(e) + rest, EMPTY) == [e] + Parse(rest, EMPTY)
  {
    assert Written(e) + rest == "event: " + e.name + "\n" + ("data: " + e.data + "\n" + ("\n" + rest));
    var b := Buffers(e.name, e.data + "\n");
    assert b.data[..|b.data| - 1] == e.data;
    assert Dispatched(b) == [e];
    hide Parse, Dispatched, Written;
    FieldsRead(e.name, e.data, "\n" + rest);
    ParseBlank(b, rest);
  }

  // ---- and only then

  /** No line end in the name, no carriage return in the data. */
  predicate Clean(name: string, data: string) {
    OneLine(name) && '\r' !in data
  }

  lemma LineClean(b: Buffers, line: string)
    requires Clean(b.name, b.data) && OneLine(line)
    ensures Clean(Line(b, line).name, Line(b, line).data)
  {
  }

  lemma DispatchedClean(b: Buffers, i: nat)
    requires Clean(b.name, b.data) && i < |Dispatched(b)|
    ensures Clean(Dispatched(b)[i].name, Dispatched(b)[i].data)
  {
  }

  /** Whatever the stream, the events read from it are clean. */
  lemma {:induction false} ReadIsClean(text: string, b: Buffers, i: nat)
    requires Clean(b.name, b.data) && i < |Parse(text, b)|
    ensures Clean(Parse(text, b)[i].name, Parse(text, b)[i].data)
    decreases |text|
  {
    hide Line, Dispatched, AfterLine, LineEnd;
    var n := LineEnd(text);
    if n == 0 {
      if i < |Dispatched(b)| {
        DispatchedClean(b, i);
      } else {
        ReadIsClean(AfterLine(text), EMPTY, i - |Dispatched(b)|);
      }
    } else {
      LineHolds(text);
      LineClean(b, text[..n]);
      ReadIsClean(AfterLine(text), Line(b, text[..n]), i);
    }
  }

  lemma {:induction false} LineHolds(text: string)
    ensures OneLine(text[..LineEnd(text)])
  {
    var n := LineEnd(text);
    if n > 0 {
      LineHolds(text[1..]);
      assert text[..n] == [text[0]] + text[1..][..n - 1];
    }
  }

  /** Markup costs more than it carries: text yet to be read adds less data than it is long. */
  lemma {:induction false} DataShrinks(text: string, b: Buffers)
    requires b.data != "" && b.data[|b.data| - 1] == '\n' && Parse(text, b) != []
    ensures |Parse(text, b)[0].data| <= |b.data| - 1 + if |text| >= 2 then |text| - 2 else 0
    decreases |text|
  {
    var n := LineEnd(text);
    if n != 0 {
      LineAdds(b, text[..n]);
      DataShrinks(AfterLine(text), Line(b, text[..n]));
    }
  }

  lemma LineAdds(b: Buffers, line: string)
    requires b.data != "" && b.data[|b.data| - 1] == '\n'
    ensures var data := Line(b, line).data;
            data != "" && data[|data| - 1] == '\n' && |data| <= |b.data| + if |line| >= 3 then |line| - 3 else 0
  {
  }

  /** An event is read back as written exactly when neither its name nor its data holds a line end. */
  lemma ReadBackExactly(e: Event)
    requires e.name != ""
    ensures Parse(Written(e), EMPTY) == [e] <==> OneLine(e.name) && OneLine(e.data)
  {
    assert Written(e) + "" == Written(e);
    if OneLine(e.name) && OneLine(e.data) {
      WrittenIsRead(e, "");
    } else if Parse(Written(e), EMPTY) == [e] {
      ReadIsClean(Written(e), EMPTY, 0);
      SplitDataShrinks(e);
    }
  }

  lemma SplitDataShrinks(e: Event)
    requires e.name != "" && OneLine(e.name) && '\n' in e.data && '\r' !in e.data
    ensures Parse(Written(e), EMPTY) != [e]
  {
    var n := LineEnd(e.data);
    LineBreaks(e.data);
    LineHolds(e.data);
    var segment, more := e.data[..n], e.data[n + 1..] + "\n\n";
    var b := Buffers(e.name, segment + "\n");
    assert e.data == segment + "\n" + e.data[n + 1..];
    assert Written(e) == "event: " + e.name + "\n" + ("data: " + segment + "\n" + more);
    hide *;
    FieldsRead(e.name, segment, more);
    if Parse(more, b) != [] { DataShrinks(more, b); }
  }

  lemma {:induction false} LineBreaks(text: string)
    requires '\n' in text
    ensures LineEnd(text) < |text|
  {
    if text[0] != '\n' && text[0] != '\r' { LineBreaks(text[1..]); }
  }

  // ---- unfinished responses

  lemma {:induction false} LineEndCut(text: string, cut: nat)
    requires cut <= |text|
    ensures LineEnd(text[..cut]) == if cut <= LineEnd(text) then cut else LineEnd(text)
  {
    if cut > 0 && text[0] != '\n' && text[0] != '\r' {
      assert text[..cut][1..] == text[1..][..cut - 1];
      LineEndCut(text[1..], cut - 1);
    }
  }

  /** The rest of a cut text is the cut rest, nothing if the cut falls inside a CRLF. */
  lemma AfterLineCut(text: string, cut: nat)
    requires LineEnd(text) < cut <= |text|
    ensures LineEnd(text[..cut]) == LineEnd(text)
    ensures var used := |text| - |AfterLine(text)|;
            AfterLine(text[..cut]) == if used <= cut then AfterLine(text)[..cut - used] else ""
  {
    LineEndCut(text, cut);
    var n, part := LineEnd(text), text[..cut];
    hide LineEnd;
    assert part[n] == text[n];
    if text[n] == '\r' && n + 1 < |text| && text[n + 1] == '\n' {
      if n + 1 < cut { assert part[n + 2..] == text[n + 2..][..cut - n - 2]; }
    } else {
      assert part[n + 1..] == text[n + 1..][..cut - n - 1];
    }
  }

  /** What the first line dispatches, and the buffers after it. */
  function Head(b: Buffers, line: string): seq<Event> { if line == "" then Dispatched(b) else [] }

  function Next(b: Buffers, line: string): Buffers { if line == "" then EMPTY else Line(b, line) }

  lemma ParseStep(text: string, b: Buffers)
    requires LineEnd(text) < |text|
    ensures var line := text[..LineEnd(text)];
            Parse(text, b) == Head(b, line) + Parse(AfterLine(text), Next(b, line))
  {
    hide AfterLine, LineEnd, Line, Dispatched;
  }

  /** At any moment of a response a client has read a prefix of its events. */
  lemma {:induction false} PrefixReads(text: string, cut: nat, b: Buffers)
    requires cut <= |text|
    ensures Parse(text[..cut], b) <= Parse(text, b)
    decreases |text|
  {
    hide *;
    LineEndCut(text, cut);
    var n, part := LineEnd(text), text[..cut];
    if cut <= n {
      NothingRead(part, b);
    } else {
      AfterLineCut(text, cut);
      var head, next, used := Head(b, text[..n]), Next(b, text[..n]), |text| - |AfterLine(text)|;
      assert part[..n] == text[..n];
      ParseStep(text, b);
      ParseStep(part, b);
      if used <= cut {
        PrefixReads(AfterLine(text), cut - used, next);
      } else {
        NothingRead("", next);
      }
      PrefixBehind(head, Parse(AfterLine(part), next), Parse(AfterLine(text), next));
    }
  }

  lemma PrefixBehind(head: seq<Event>, a: seq<Event>, b: seq<Event>)
    requires a <= b
    ensures head + a <= head + b
  {
  }

  /** Without a complete line there is nothing to dispatch. */
  lemma NothingRead(text: string, b: Buffers)
    requires LineEnd(text) == |text|
    ensures Parse(text, b) == []
  {
  }
}
