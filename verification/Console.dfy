/** The console log writer, which turns a stream of log text into formatted lines however the
    stream is cut into writes (internal/logger/console.go). */
module Console {
  import opened Text

  /** FormatConsoleLine; None when the line is not a JSON log event. */
  type Formatter = string -> Option<string>

  /** What is printed for a line, its newline included; a blank result prints nothing. */
  function Printer(format: Formatter): string -> string {
    (line: string) =>
      var shown := if format(line).Some? then format(line).value else TrimSpace(line);
      if TrimSpace(shown) == "" then "" else shown + "\n"
  }

  ghost predicate IsBlank(s: string) {
    forall i :: 0 <= i < |s| ==> IsSpace(s[i])
  }

  lemma TrimBlank(s: string)
    ensures TrimSpace(s) == "" <==> IsBlank(s)
  {
    var i, j := TrimCuts(s, IsSpace);
  }

  /** A log event is printed as formatted, any other line without the white space around it, and
      nothing at all for what is blank. */
  lemma LineShown(format: Formatter, line: string)
    ensures var shown := Printer(format)(line);
            match format(line)
            case Some(text) => shown == if IsBlank(text) then "" else text + "\n"
            case None =>
              if IsBlank(line) then shown == ""
              else exists i: nat, j: nat, core :: CutTo(line, IsSpace, i, j, core) && shown == core + "\n"
  {
    match format(line)
    case Some(text) =>
      TrimBlank(text);
    case None =>
      var i, j := TrimCuts(line, IsSpace);
      TrimBlank(line);
      TrimIdempotent(line, IsSpace);
      assert CutTo(line, IsSpace, i, j, TrimSpace(line));
  }

  /** The length of the first line, its newline included; 0 when there is no newline. */
  function LineLength(text: string): (n: nat)
    ensures n <= |text|
  {
    if text == "" then 0
    else if text[0] == '\n' then 1
    else
      var n := LineLength(text[1..]);
      if n == 0 then 0 else n + 1
  }

  lemma LineLengthIs(text: string)
    ensures LineLength(text) == 0 <==> '\n' !in text
    ensures LineLength(text) > 0 ==> text[LineLength(text) - 1] == '\n' && '\n' !in text[..LineLength(text) - 1]
  {
    if text != "" && text[0] != '\n' {
      LineLengthIs(text[1..]);
      assert text == [text[0]] + text[1..];
      var n := LineLength(text);
      if n > 0 {
        assert text[..n - 1] == [text[0]] + text[1..][..n - 2];
      }
    }
  }

  datatype Drained = Drained(output: string, rest: string)

  /** Prints every complete line of a text; what follows the last newline is left over. */
  function DrainAll(show: string -> string, text: string): Drained
    decreases |text|
  {
    var n := LineLength(text);
    if n == 0 then Drained("", text) else
    var d := DrainAll(show, text[n..]);
    d.(output := show(text[..n]) + d.output)
  }

  /** What a refused print leaves: up to `torn` characters of its line. */
  function Torn(printed: string, torn: nat): string {
    printed[..Min(torn, |printed|)]
  }

  /** The same when only the first `prints` calls on the underlying writer succeed: the next
      one stops the loop, and the rest of its line is gone. */
  function DrainUntil(show: string -> string, text: string, prints: nat, torn: nat): (Drained, bool)
    decreases |text|
  {
    var n := LineLength(text);
    if n == 0 then (Drained("", text), false) else
    var printed := show(text[..n]);
    if printed == "" then DrainUntil(show, text[n..], prints, torn)
    else if prints == 0 then (Drained(Torn(printed, torn), text[n..]), true)
    else
      var d := DrainUntil(show, text[n..], prints - 1, torn);
      (d.0.(output := printed + d.0.output), d.1)
  }

  class ConsoleWriter {
    const show: string -> string
    var output: string
    var buffer: string

    constructor (format: Formatter)
      ensures output == "" && buffer == "" && show == Printer(format)
    {
      show := Printer(format);
      output, buffer := "", "";
    }

    /** `prints` is the number of print calls the underlying writer will accept, `torn` what it
        writes of the line it refuses. */
    method Write(payload: string, prints: nat, torn: nat) returns (accepted: nat, err: bool)
      modifies `output, `buffer
      ensures var (d, failed) := DrainUntil(show, old(buffer) + payload, prints, torn);
              output == old(output) + d.output && buffer == d.rest && err == failed
      ensures accepted == if err then 0 else |payload|
    {
      var d, failed := PrintLines(show, buffer + payload, prints, torn);
      output, buffer := output + d.output, d.rest;
      return if failed then 0 else |payload|, failed;
    }
  }

  /** The loop over the buffered lines. */
  method PrintLines(show: string -> string, text: string, prints: nat, torn: nat) returns (d: Drained, failed: bool)
    ensures (d, failed) == DrainUntil(show, text, prints, torn)
  {
    var output, buffer, left := "", text, prints;
    while true
      invariant DrainUntil(show, buffer, left, torn).0.rest == DrainUntil(show, text, prints, torn).0.rest
      invariant DrainUntil(show, buffer, left, torn).1 == DrainUntil(show, text, prints, torn).1
      invariant output + DrainUntil(show, buffer, left, torn).0.output == DrainUntil(show, text, prints, torn).0.output
      decreases |buffer|
    {
      var n := LineLength(buffer);
      assert output + "" == output;
      if n == 0 {
        return Drained(output, buffer), false;
      }
      var shown := show(buffer[..n]);
      buffer := buffer[n..];
      if shown == "" {
        continue;
      }
      if left == 0 {
        return Drained(output + Torn(shown, torn), buffer), true;
      }
      output, left := output + shown, left - 1;
    }
  }

  // ---------------------------------------------------------------- how many prints it takes

  /** The number of complete lines that print anything. */
  function Prints(show: string -> string, text: string): nat
    decreases |text|
  {
    var n := LineLength(text);
    if n == 0 then 0 else (if show(text[..n]) == "" then 0 else 1) + Prints(show, text[n..])
  }

  /** Draining fails exactly if the writer takes fewer prints than there are lines to print, and
      until then it does the same as without faults. */
  lemma {:induction false} FailsIff(show: string -> string, text: string, prints: nat, torn: nat)
    ensures DrainUntil(show, text, prints, torn).1 <==> prints < Prints(show, text)
    ensures prints >= Prints(show, text) ==> DrainUntil(show, text, prints, torn).0 == DrainAll(show, text)
    decreases |text|
  {
    var n := LineLength(text);
    if n > 0 {
      if show(text[..n]) == "" {
        FailsIff(show, text[n..], prints, torn);
        assert "" + DrainAll(show, text[n..]).output == DrainAll(show, text[n..]).output;
      } else if prints > 0 {
        FailsIff(show, text[n..], prints - 1, torn);
      }
    }
  }

  // ---------------------------------------------------------------- no failures

  /** `rest` is what follows the last newline of `text`. */
  ghost predicate IsTail(text: string, rest: string) {
    && '\n' !in rest && |rest| <= |text| && text[|text| - |rest|..] == rest
    && (|rest| < |text| ==> text[|text| - |rest| - 1] == '\n')
  }

  lemma TailBehind(text: string, n: nat, rest: string)
    requires 0 < n <= |text| && text[n - 1] == '\n' && IsTail(text[n..], rest)
    ensures IsTail(text, rest)
  {
  }

  /** The retained buffer is exactly the text after the last newline. */
  lemma {:induction false} RestIsTail(show: string -> string, text: string)
    ensures IsTail(text, DrainAll(show, text).rest)
    decreases |text|
  {
    var n := LineLength(text);
    LineLengthIs(text);
    if n > 0 {
      RestIsTail(show, text[n..]);
      TailBehind(text, n, DrainAll(show, text[n..]).rest);
    }
  }

  lemma LineLengthAppend(a: string, b: string)
    ensures LineLength(a) > 0 ==> LineLength(a + b) == LineLength(a)
  {
    if a != "" {
      assert (a + b)[1..] == a[1..] + b;
      LineLengthAppend(a[1..], b);
    }
  }

  lemma Regroup(a: string, b: string, c: string)
    ensures a + (b + c) == a + b + c
  {
  }

  /** Draining a text in two steps prints what draining it at once prints. */
  lemma {:induction false} DrainAppend(show: string -> string, a: string, b: string)
    ensures var first := DrainAll(show, a);
            var second := DrainAll(show, first.rest + b);
            DrainAll(show, a + b) == second.(output := first.output + second.output)
    decreases |a|
  {
    var n := LineLength(a);
    if n > 0 {
      LineLengthAppend(a, b);
      assert (a + b)[..n] == a[..n] && (a + b)[n..] == a[n..] + b;
      DrainAppend(show, a[n..], b);
      var first := DrainAll(show, a[n..]);
      Regroup(show(a[..n]), first.output, DrainAll(show, first.rest + b).output);
    }
  }

  function Concat(chunks: seq<string>): string {
    if chunks == [] then "" else Concat(chunks[..|chunks| - 1]) + chunks[|chunks| - 1]
  }

  /** The writer's output and buffer after a series of successful writes. */
  function WriteEach(show: string -> string, chunks: seq<string>): Drained {
    if chunks == [] then Drained("", "") else
    var before := WriteEach(show, chunks[..|chunks| - 1]);
    var d := DrainAll(show, before.rest + chunks[|chunks| - 1]);
    d.(output := before.output + d.output)
  }

  /** Any way of cutting a stream into writes gives the same output and the same buffer. */
  lemma {:induction false} ChunkingIndependence(show: string -> string, chunks: seq<string>)
    ensures WriteEach(show, chunks) == DrainAll(show, Concat(chunks))
  {
    if chunks != [] {
      var front, last := chunks[..|chunks| - 1], chunks[|chunks| - 1];
      ChunkingIndependence(show, front);
      DrainAppend(show, Concat(front), last);
    }
  }

  /** The complete lines of a stream, and what it prints for them. */
  function Joined(lines: seq<string>): string {
    if lines == [] then "" else lines[0] + "\n" + Joined(lines[1..])
  }

  function PrintedFor(show: string -> string, lines: seq<string>): string {
    if lines == [] then "" else show(lines[0] + "\n") + PrintedFor(show, lines[1..])
  }

  lemma {:induction false} FirstLine(line: string, rest: string)
    requires '\n' !in line
    ensures LineLength(line + "\n" + rest) == |line| + 1
  {
    if line != "" {
      FirstLine(line[1..], rest);
      assert (line + "\n" + rest)[1..] == line[1..] + "\n" + rest;
    }
  }

  /** Every complete line is printed once, in order, and nothing else is. */
  lemma {:induction false} LineByLine(show: string -> string, lines: seq<string>, tail: string)
    requires '\n' !in tail && forall i :: 0 <= i < |lines| ==> '\n' !in lines[i]
    ensures DrainAll(show, Joined(lines) + tail) == Drained(PrintedFor(show, lines), tail)
  {
    if lines == [] {
      LineLengthIs(tail);
      assert Joined(lines) + tail == tail;
    } else {
      var rest := Joined(lines[1..]) + tail;
      var text := lines[0] + "\n" + rest;
      assert Joined(lines) + tail == text;
      FirstLine(lines[0], rest);
      assert text[..|lines[0]| + 1] == lines[0] + "\n" && text[|lines[0]| + 1..] == rest;
      LineByLine(show, lines[1..], tail);
    }
  }

  // ---------------------------------------------------------------- a failing writer

  /** A refused print loses what it did not write of its one line and nothing else: what was
      printed before is what a writer without faults prints, and the text kept in the buffer
      still prints everything that comes after. */
  lemma {:induction false} FailureLosesOneLine(show: string -> string, text: string, prints: nat, torn: nat)
    returns (before: string, line: string)
    requires DrainUntil(show, text, prints, torn).1
    ensures var d := DrainUntil(show, text, prints, torn).0;
            var later := DrainAll(show, d.rest);
            && show(line) != "" && d.output == before + show(line)[..Min(torn, |show(line)|)]
            && Prints(show, text) == prints + 1 + Prints(show, d.rest)
            && DrainAll(show, text) == later.(output := before + (show(line) + later.output))
    decreases |text|
  {
    var n := LineLength(text);
    var printed := show(text[..n]);
    if printed == "" {
      before, line := FailureLosesOneLine(show, text[n..], prints, torn);
      assert "" + DrainAll(show, text[n..]).output == DrainAll(show, text[n..]).output;
    } else if prints > 0 {
      var rest;
      rest, line := FailureLosesOneLine(show, text[n..], prints - 1, torn);
      before := printed + rest;
      Regroup(printed, rest, Torn(show(line), torn));
      Regroup(printed, rest, show(line) + DrainAll(show, DrainUntil(show, text[n..], prints - 1, torn).0.rest).output);
    } else {
      before, line := "", text[..n];
      assert "" + Torn(printed, torn) == Torn(printed, torn);
      assert "" + (printed + DrainAll(show, text[n..]).output) == printed + DrainAll(show, text[n..]).output;
    }
  }
}
