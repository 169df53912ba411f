/** Whole known_hosts files: lines written through a buffer of 4092 characters and read back
    through one. */
module HostFiles {
  import opened Errors
  import opened HostText
  import opened HostEntries
  import opened HostRoundTrip
  import opened HostLines
  import Base64

  const BUFFER := 4092

  /** What the write loop leaves in the file, and its return code. */
  datatype Written = Written(text: string, rc: int)
  {
    function Behind(before: string): Written {
      Written(before + text, rc)
    }
  }

  function WriteAll(hosts: seq<KnownHost>): Written {
    if hosts == [] then Written("", 0)
    else
      match Print(hosts[0])
      case Err(code) => Written("", code)
      case Ok(line) =>
        if |line| + 1 > BUFFER then Written("", ERROR_BUFFER_TOO_SMALL)
        else
          var more := WriteAll(hosts[1..]);
          Written(line + more.text, more.rc)
  }

  /** A line as `fgets` delivers it. */
  predicate LineText(line: string) {
    '\n' !in line[..if line == "" then 0 else |line| - 1]
  }

  /** `fgets` stops behind the first newline, and when the buffer is full. */
  function ChunkLen(text: string, room: nat): (n: nat)
    requires text != "" && room > 0
    ensures 0 < n <= |text| && n <= room && LineText(text[..n])
    decreases room
  {
    if text[0] == '\n' || |text| == 1 || room == 1 then
      1
    else
      var n := 1 + ChunkLen(text[1..], room - 1);
      assert text[..n][..n - 1] == [text[0]] + text[1..][..n - 1][..n - 2];
      n
  }

  /** What reading a file adds to the list; the result is the number of lines, or an error. */
  function ReadAll(text: string): Parsed {
    if text == "" then Parsed([], 0)
    else
      var n := ChunkLen(text, BUFFER - 1);
      var p := ParseLine(text[..n]);
      if p.rc != 0 then Parsed(p.added, ERROR_KNOWN_HOSTS)
      else
        var more := ReadAll(text[n..]);
        Parsed(p.added + more.added, if more.rc < 0 then more.rc else more.rc + 1)
  }

  function CanonicalAll(hosts: seq<KnownHost>): (r: seq<KnownHost>)
    ensures |r| == |hosts| && forall i :: 0 <= i < |r| ==> r[i] == Canonical(hosts[i])
  {
    seq(|hosts|, i requires 0 <= i < |hosts| => Canonical(hosts[i]))
  }

  lemma {:induction false} OneChunk(line: string, rest: string, room: nat)
    requires line != "" && line[|line| - 1] == '\n' && LineText(line) && |line| <= room
    ensures ChunkLen(line + rest, room) == |line|
  {
    if |line| > 1 {
      assert line[0] in line[..|line| - 1];
      assert (line + rest)[1..] == line[1..] + rest;
      assert line[1..][..|line| - 2] == line[..|line| - 1][1..];
      OneChunk(line[1..], rest, room - 1);
    }
  }

  lemma PrintedEndsLine(e: KnownHost)
    requires Print(e).Ok?
    ensures var line := Print(e).value; line != "" && line[|line| - 1] == '\n'
  {
    hide KeyText, TypeName, Base64.Encode;
  }

  predicate Savable(e: KnownHost) {
    && WellFormed(e) && Faithful(e) && Print(e).Ok?
    && |Print(e).value| < BUFFER && LineText(Print(e).value)
  }

  /** Writing a list of savable entries succeeds, and reading the file back gives the same
      entries in the same order, one a line. */
  lemma {:induction false} FileRoundTrip(hosts: seq<KnownHost>)
    requires forall i :: 0 <= i < |hosts| ==> Savable(hosts[i])
    ensures WriteAll(hosts).rc == 0
    ensures ReadAll(WriteAll(hosts).text) == Parsed(CanonicalAll(hosts), |hosts|)
  {
    hide Print, ParseLine, WellFormed, Faithful, ChunkLen, LineText, Canonical;
    if hosts != [] {
      var e, more := hosts[0], WriteAll(hosts[1..]);
      FileRoundTrip(hosts[1..]);
      RoundTrip(e);
      PrintedEndsLine(e);
      var line := Print(e).value;
      OneChunk(line, more.text, BUFFER - 1);
      assert (line + more.text)[..|line|] == line && (line + more.text)[|line|..] == more.text;
      assert CanonicalAll(hosts) == [Canonical(e)] + CanonicalAll(hosts[1..]);
    }
  }

  /** An entry that was read, whose fields have no newline in them. */
  ghost predicate WasRead(e: KnownHost) {
    && (exists line :: CameFrom(e, line))
    && (Print(e).Ok? ==> LineText(Print(e).value))
  }

  /** Entries that were read, written to a file and read again are the same entries, one a line, if and only
      if each is lasting and fits the buffer. */
  lemma FileComesBackExactly(hosts: seq<KnownHost>)
    requires forall i :: 0 <= i < |hosts| ==> WasRead(hosts[i])
    ensures WriteAll(hosts).rc == 0 && ReadAll(WriteAll(hosts).text) == Parsed(hosts, |hosts|)
       <==> forall i :: 0 <= i < |hosts| ==> Lasting(hosts[i]) && Print(hosts[i]).Ok? && |Print(hosts[i]).value| < BUFFER
  {
    hide Print, ParseLine, WellFormed, Faithful, Lasting, Canonical, CameFrom, LineText, ReadAll, WriteAll;
    forall i | 0 <= i < |hosts| ensures Lasting(hosts[i]) <==> ComesBack(hosts[i]) {
      var line :| CameFrom(hosts[i], line);
      ComesBackExactly(line, hosts[i]);
    }
    if forall i :: 0 <= i < |hosts| ==> Lasting(hosts[i]) && Print(hosts[i]).Ok? && |Print(hosts[i]).value| < BUFFER {
      AllComeBack(hosts);
    }
    if WriteAll(hosts).rc == 0 {
      EachAtMostOne(hosts);
    }
  }

  ghost predicate ComesBack(e: KnownHost) {
    Print(e).Ok? && ParseLine(Print(e).value) == Parsed([e], 0)
  }

  lemma {:induction false} AllComeBack(hosts: seq<KnownHost>)
    requires forall i :: 0 <= i < |hosts| ==> WasRead(hosts[i]) && ComesBack(hosts[i]) && |Print(hosts[i]).value| < BUFFER
    ensures WriteAll(hosts).rc == 0 && ReadAll(WriteAll(hosts).text) == Parsed(hosts, |hosts|)
  {
    hide Print, ParseLine, ChunkLen, LineText, CameFrom;
    if hosts != [] {
      AllComeBack(hosts[1..]);
      FirstLine(hosts);
      assert hosts == [hosts[0]] + hosts[1..];
    }
  }

  /** The first line, and the rest of the file. */
  lemma FirstLine(hosts: seq<KnownHost>)
    requires hosts != [] && Print(hosts[0]).Ok? && LineText(Print(hosts[0]).value) && |Print(hosts[0]).value| < BUFFER
    ensures var line, more := Print(hosts[0]).value, WriteAll(hosts[1..]);
            var p, rest := ParseLine(line), ReadAll(more.text);
            && WriteAll(hosts) == Written(line + more.text, more.rc)
            && ReadAll(line + more.text) == if p.rc != 0 then Parsed(p.added, ERROR_KNOWN_HOSTS)
                                            else Parsed(p.added + rest.added, if rest.rc < 0 then rest.rc else rest.rc + 1)
  {
    hide Print, ParseLine, ChunkLen, LineText;
    var line, more := Print(hosts[0]).value, WriteAll(hosts[1..]);
    PrintedEndsLine(hosts[0]);
    OneChunk(line, more.text, BUFFER - 1);
    assert (line + more.text)[..|line|] == line && (line + more.text)[|line|..] == more.text;
  }

  /** No line gives more than one entry, so none can make up for another. */
  lemma {:induction false} EachAtMostOne(hosts: seq<KnownHost>)
    requires WriteAll(hosts).rc == 0 && forall i :: 0 <= i < |hosts| ==> WasRead(hosts[i])
    ensures var r := ReadAll(WriteAll(hosts).text);
            && |r.added| <= |hosts| && r.rc <= |hosts|
            && (r == Parsed(hosts, |hosts|) ==>
                  forall i :: 0 <= i < |hosts| ==> ComesBack(hosts[i]) && |Print(hosts[i]).value| < BUFFER)
  {
    hide Print, ParseLine, ChunkLen, LineText, CameFrom;
    if hosts != [] {
      var e, more := hosts[0], WriteAll(hosts[1..]);
      assert Print(e).Ok? && |Print(e).value| < BUFFER && more.rc == 0;
      EachAtMostOne(hosts[1..]);
      FirstLine(hosts);
      var line :| CameFrom(e, line);
      AtMostOne(line, e);
      var p, rest := ParseLine(Print(e).value), ReadAll(more.text);
      if ReadAll(WriteAll(hosts).text) == Parsed(hosts, |hosts|) {
        assert p.rc == 0 && p.added + rest.added == hosts;
        assert |p.added| == 1 && p.added == (p.added + rest.added)[..1] && rest.added == (p.added + rest.added)[1..];
        assert p.added == [e] && rest == Parsed(hosts[1..], |hosts| - 1);
      }
    }
  }
}
