/** Sender.waitForResponse: read characters from the metadata connection, building a line; at
    each '\n' or '\r' return the trimmed line if it is not blank, else start a new line. A line
    never terminated before the stream ends or goes quiet is the 30-second timeout. */
module Response {
  import opened Wrappers
  import opened Text

  datatype ResponseError = ResponseTimeout

  predicate IsLineEnd(c: char) { c == '\n' || c == '\r' }

  predicate NoLineEnd(s: string) { forall j :: 0 <= j < |s| ==> !IsLineEnd(s[j]) }

  /** The scan from the current position, with `pending` the characters of the line so far. */
  function Scan(input: string, pending: string): Result<string, ResponseError>
    decreases |input|
  {
    if input == [] then Failure(ResponseTimeout)
    else if IsLineEnd(input[0]) then
      var line := Trim(pending);
      if line != [] then Success(line) else Scan(input[1..], [])
    else Scan(input[1..], pending + [input[0]])
  }

  /** The StringBuilder loop of waitForResponse over the characters the reader delivers. */
  method WaitForResponse(input: string) returns (r: Result<string, ResponseError>)
    ensures r == Scan(input, [])
  {
    var response: string := [];
    var i := 0;
    while i < |input|
      invariant 0 <= i <= |input|
      invariant Scan(input, []) == Scan(input[i..], response)
    {
      var c := input[i];
      assert input[i..][1..] == input[i + 1..];
      if IsLineEnd(c) {
        var result := Trim(response);
        if result != [] {
          return Success(result);
        }
        response := [];
      } else {
        response := response + [c];
      }
      i := i + 1;
    }
    return Failure(ResponseTimeout);
  }

  lemma {:induction false} ScanAccumulates(line: string, rest: string, pending: string)
    requires NoLineEnd(line)
    ensures Scan(line + rest, pending) == Scan(rest, pending + line)
    decreases |line|
  {
    if line != [] {
      assert (line + rest)[1..] == line[1..] + rest;
      assert pending + [line[0]] + line[1..] == pending + line;
      ScanAccumulates(line[1..], rest, pending + [line[0]]);
    } else {
      assert pending + line == pending;
      assert line + rest == rest;
    }
  }

  /** The first non-blank line is the response, trimmed. */
  lemma FirstLineIsResponse(line: string, sep: char, rest: string)
    requires NoLineEnd(line) && IsLineEnd(sep) && Trim(line) != []
    ensures Scan(line + [sep] + rest, []) == Success(Trim(line))
  {
    ScanAccumulates(line, [sep] + rest, []);
    assert line + [sep] + rest == line + ([sep] + rest);
    assert [] + line == line;
  }

  /** Blank lines (empty or only characters trim removes) are skipped. */
  lemma BlankLineSkipped(line: string, sep: char, rest: string)
    requires NoLineEnd(line) && IsLineEnd(sep) && Trim(line) == []
    ensures Scan(line + [sep] + rest, []) == Scan(rest, [])
  {
    ScanAccumulates(line, [sep] + rest, []);
    assert line + [sep] + rest == line + ([sep] + rest);
    assert [] + line == line;
    assert ([sep] + rest)[1..] == rest;
  }

  /** Without a line terminator there is no response, only the timeout. */
  lemma {:induction false} UnterminatedTimesOut(input: string, pending: string)
    requires NoLineEnd(input)
    ensures Scan(input, pending) == Failure(ResponseTimeout)
    decreases |input|
  {
    if input != [] {
      UnterminatedTimesOut(input[1..], pending + [input[0]]);
    }
  }

  /** A response is a non-blank, trimmed text without line terminators. */
  lemma {:induction false} ResponseShape(input: string, pending: string)
    requires NoLineEnd(pending)
    requires Scan(input, pending).Success?
    ensures var v := Scan(input, pending).value;
      v != [] && NoLineEnd(v) && !IsTrimmed(v[0]) && !IsTrimmed(v[|v| - 1])
    decreases |input|
  {
    if IsLineEnd(input[0]) {
      if Trim(pending) != [] {
        TrimInside(pending);
      } else {
        ResponseShape(input[1..], []);
      }
    } else {
      ResponseShape(input[1..], pending + [input[0]]);
    }
  }

  lemma TrimInside(s: string)
    requires NoLineEnd(s)
    ensures NoLineEnd(Trim(s))
  {
    var t := Trim(s);
    forall j | 0 <= j < |t| ensures !IsLineEnd(t[j]) {
      var lo := KeptFrom(s, 0);
      assert t[j] == s[lo + j];
    }
  }

  /** PrintWriter.println("READY") on the receiver, with either line separator, reads as READY
      whatever follows. */
  lemma ReadyIsRecognised(rest: string)
    ensures Scan("READY\n" + rest, []) == Success("READY")
    ensures Scan("READY\r\n" + rest, []) == Success("READY")
  {
    TrimKeeps("READY");
    FirstLineIsResponse("READY", '\n', rest);
    assert "READY\n" + rest == "READY" + ['\n'] + rest;
    FirstLineIsResponse("READY", '\r', ['\n'] + rest);
    assert "READY\r\n" + rest == "READY" + ['\r'] + (['\n'] + rest);
  }
}
