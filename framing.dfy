/**
 * Line framing of the TCP byte streams, as the read and send halves of `WinsockUpdate` do it in
 * Source/Application/Networking/NetworkServer.cpp and NetworkClient.cpp. Received bytes are appended
 * to an incoming buffer and at most one line, up to the first newline, is taken out per read; queued
 * bytes leave the outgoing buffer from the front, as many as `send` reports.
 */
module Framing {
  import opened Wrappers

  /** Server connections send through an 8-byte buffer, the client through a 64-byte one. */
  const ServerChunk: nat := 8
  const ClientChunk: nat := 64
  /** Both sides `recv` into an 8-byte buffer. */
  const ReadChunk: nat := 8

  /** The position of the first newline in `s`, or `|s|` if there is none (`std::find`). */
  function NewlineAt(s: string): (k: nat)
    ensures k <= |s| && '\n' !in s[..k] && (k < |s| ==> s[k] == '\n')
  {
    if s == [] || s[0] == '\n' then 0
    else
      var k := 1 + NewlineAt(s[1..]);
      assert s[..k] == [s[0]] + s[1..][..k - 1];
      k
  }

  /** What one look at the incoming buffer yields: the line before the first newline, if any, and
      the buffer left behind. */
  datatype Taken = Taken(line: Option<string>, rest: string)

  /** Take the bytes up to the first newline out of the buffer, and the newline with them. */
  function TakeLine(buffer: string): (r: Taken)
    ensures r.line.None? <==> '\n' !in buffer
    ensures r.line.None? ==> r.rest == buffer
    ensures r.line.Some? ==> buffer == r.line.value + "\n" + r.rest && '\n' !in r.line.value
  {
    var k := NewlineAt(buffer);
    if k == |buffer| then
      assert buffer[..k] == buffer;
      Taken(None, buffer)
    else
      assert buffer == buffer[..k] + "\n" + buffer[k + 1..];
      Taken(Some(buffer[..k]), buffer[k + 1..])
  }

  /** A line followed by its newline is taken back out whole, whatever follows it. */
  lemma TakeLineUnique(line: string, rest: string)
    requires '\n' !in line
    ensures TakeLine(line + "\n" + rest) == Taken(Some(line), rest)
  {
    var s := line + "\n" + rest;
    var k := NewlineAt(s);
    assert s[|line|] == '\n';
    assert forall i | 0 <= i < |line| :: s[i] == line[i];
    assert k == |line|;
    assert s[..k] == line && s[k + 1..] == rest;
  }

  /** Every line is free of newlines. */
  predicate Lines(lines: seq<string>)
  {
    forall i | 0 <= i < |lines| :: '\n' !in lines[i]
  }

  /** The bytes of the lines, each followed by a newline. */
  function Joined(lines: seq<string>): string
  {
    if lines == [] then [] else lines[0] + "\n" + Joined(lines[1..])
  }

  /** The bytes of the chunks, one after the other. */
  function Flatten(chunks: seq<string>): string
  {
    if chunks == [] then [] else chunks[0] + Flatten(chunks[1..])
  }

  /** One read: the received bytes are appended and at most one line is taken out. */
  function Read(buffer: string, chunk: string): Taken
  {
    TakeLine(buffer + chunk)
  }

  /** A run of reads from `buffer`: the lines handed over, in order, and the buffer left. */
  function ReadAll(buffer: string, chunks: seq<string>): (string, seq<string>)
    decreases |chunks|
  {
    if chunks == [] then (buffer, [])
    else
      var t := Read(buffer, chunks[0]);
      var later := ReadAll(t.rest, chunks[1..]);
      (later.0, (if t.line.Some? then [t.line.value] else []) + later.1)
  }

  /** Nothing is lost or invented by a run of reads: the lines handed over, each with its newline,
      followed by what is left in the buffer, are exactly the bytes held and received. */
  lemma {:induction false} ReadAllConserves(buffer: string, chunks: seq<string>)
    ensures var r := ReadAll(buffer, chunks); Joined(r.1) + r.0 == buffer + Flatten(chunks)
    decreases |chunks|
  {
    if chunks != [] {
      var t := Read(buffer, chunks[0]);
      var later := ReadAll(t.rest, chunks[1..]);
      ReadAllConserves(t.rest, chunks[1..]);
      var lines := (if t.line.Some? then [t.line.value] else []) + later.1;
      if t.line.Some? {
        assert lines[1..] == later.1;
        ReadStep(t.line.value + "\n", t.rest, Joined(later.1), later.0, buffer + chunks[0], Flatten(chunks[1..]));
      } else {
        assert lines == later.1;
        ReadStep([], t.rest, Joined(later.1), later.0, buffer + chunks[0], Flatten(chunks[1..]));
      }
    }
  }

  /** One step of `ReadAllConserves`, on the strings alone. */
  lemma ReadStep(taken: string, rest: string, joined: string, left: string, received: string, flat: string)
    requires received == taken + rest && joined + left == rest + flat
    ensures (taken + joined) + left == received + flat
  {
    calc {
      (taken + joined) + left;
      taken + (joined + left);
      taken + (rest + flat);
      (taken + rest) + flat;
    }
  }

  /** A run of reads hands over newline-free lines, at most one per read. */
  lemma {:induction false} ReadAllLines(buffer: string, chunks: seq<string>)
    ensures var r := ReadAll(buffer, chunks); Lines(r.1) && |r.1| <= |chunks|
    decreases |chunks|
  {
    if chunks != [] {
      var t := Read(buffer, chunks[0]);
      ReadAllLines(t.rest, chunks[1..]);
    }
  }

  /** If the bytes of some lines begin the bytes of others, the first lines begin the others. */
  lemma {:induction false} JoinedPrefix(a: seq<string>, b: seq<string>, tail: string)
    requires Lines(a) && Lines(b) && Joined(a) + tail == Joined(b)
    ensures |a| <= |b| && a == b[..|a|]
    decreases |a|
  {
    if a != [] {
      var s := Joined(a) + tail;
      assert s == a[0] + "\n" + (Joined(a[1..]) + tail);
      assert s == b[0] + "\n" + Joined(b[1..]);
      TakeLineUnique(a[0], Joined(a[1..]) + tail);
      TakeLineUnique(b[0], Joined(b[1..]));
      assert Lines(a[1..]) && Lines(b[1..]) by {
        assert forall i | 0 <= i < |a| - 1 :: a[1..][i] == a[i + 1];
        assert forall i | 0 <= i < |b| - 1 :: b[1..][i] == b[i + 1];
      }
      JoinedPrefix(a[1..], b[1..], tail);
    }
  }

  /** Reading a stream of lines chunk by chunk hands over a prefix of those lines, in order: no
      line is split, merged, dropped from the middle or reordered, however the bytes were cut. */
  lemma {:induction false} LinesInOrder(sent: seq<string>, chunks: seq<string>, unread: string)
    requires Lines(sent) && Flatten(chunks) + unread == Joined(sent)
    ensures var read := ReadAll([], chunks).1; |read| <= |sent| && read == sent[..|read|]
  {
    var r := ReadAll([], chunks);
    var flat := Flatten(chunks);
    ReadAllConserves([], chunks);
    ReadAllLines([], chunks);
    assert [] + flat == flat;
    assert Joined(r.1) + r.0 == flat;
    assert Joined(r.1) + (r.0 + unread) == Joined(sent) by {
      assert Joined(r.1) + (r.0 + unread) == (Joined(r.1) + r.0) + unread;
    }
    JoinedPrefix(r.1, sent, r.0 + unread);
  }

  /** The number of bytes one send hands to the socket. */
  function SendSize(limit: nat, outgoing: string): (n: nat)
    ensures n <= limit && n <= |outgoing| && (n == limit || n == |outgoing|)
  {
    if limit < |outgoing| then limit else |outgoing|
  }
}
