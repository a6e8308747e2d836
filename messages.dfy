/**
 * The protocol's messages (Source/Application/Networking/Network.h): what each one carries, how it is
 * printed with its wire template, and how the host (NetworkServer::OnMessage) and the guest
 * (NetworkClient::OnMessage) read a line back, trying the message kinds in a fixed order.
 */
module Messages {
  import opened CheckersConstants
  import opened Formatting
  import Framing

  /** The concrete messages; the datatype constructor is the message's `Message::Type` tag. */
  datatype Message =
    | Kill(index: nat, isHostCalling: nat)
    | Move(fromIndex: nat, destIndex: nat, isHostCalling: nat)
    | GameFull
    | Active
    | Piece(side: nat, destIndex: nat)
    | Turn(side: nat)
    | Restart

  predicate IsFlag(n: nat) { n == 0 || n == 1 }

  /** What the constructors assert: a KILL or MOVE flag and a PIECE or TURN side is 0 or 1. */
  predicate WellFormed(m: Message)
  {
    match m
    case Kill(_, flag) => IsFlag(flag)
    case Move(_, _, flag) => IsFlag(flag)
    case Piece(side, _) => IsFlag(side)
    case Turn(side) => IsFlag(side)
    case _ => true
  }

  /** What a decoder makes of one line: a message to queue, a match whose constructor assertion
      fails, or a line that matches no message ("Unhandled message."). */
  datatype Decoded = Queued(msg: Message) | Rejected | Unhandled

  /** `new XMessage(...)`: the fields are stored as given, once the assertion holds. */
  function Construct(m: Message): (d: Decoded)
    ensures d != Unhandled
    ensures d.Queued? <==> WellFormed(m)
    ensures d.Queued? ==> d.msg == m
  {
    if WellFormed(m) then Queued(m) else Rejected
  }

  // ----- Printing -----

  function Template(m: Message): string
  {
    match m
    case Kill(_, _) => KillTemplate
    case Move(_, _, _) => MoveTemplate
    case GameFull => GameFullTemplate
    case Active => ActiveTemplate
    case Piece(_, _) => PieceTemplate
    case Turn(_) => TurnTemplate
    case Restart => RestartTemplate
  }

  /** The values printed into the template's holes, in template order. */
  function Args(m: Message): seq<nat>
  {
    match m
    case Kill(index, flag) => [index, flag]
    case Move(from, dest, flag) => [from, dest, flag]
    case Piece(side, index) => [side, index]
    case Turn(side) => [side]
    case _ => []
  }

  /** `--template`: the format the decoders scan with. */
  function Format(m: Message): string
  {
    StripNewline(Template(m))
  }

  /** Each template is its format followed by one newline; the holes of the format take the
      message's values and are kept apart by literal text. */
  lemma Templates(m: Message)
    ensures Format(m) + "\n" == Template(m) && '\n' !in Format(m) && Format(m) != []
    ensures Holes(Format(m)) == |Args(m)| && Separated(Format(m))
  {
    match m
    case Kill(_, _) => KillFormat();
    case Move(_, _, _) => MoveFormat();
    case Piece(_, _) => PieceFormat();
    case Turn(_) => TurnFormat();
    case GameFull => PlainFormat("GAME IS FULL", GameFullTemplate);
    case Active => PlainFormat("ACTIVE", ActiveTemplate);
    case Restart => PlainFormat("RESTART", RestartTemplate);
  }

  lemma FormatOf(f: string, template: string)
    requires template == f + "\n" && '\n' !in f
    ensures StripNewline(template) == f
  {
    assert template == f + "\n" + [];
    StripNewlineAt(f, []);
  }

  lemma PlainFormat(f: string, template: string)
    requires template == f + "\n" && '\n' !in f && '%' !in f && f != []
    ensures StripNewline(template) == f && Holes(f) == 0 && Separated(f)
  {
    FormatOf(f, template);
    LiteralPrefix(f, "");
    assert f + "" == f;
  }

  lemma KillFormat()
    ensures var f := StripNewline(KillTemplate);
      f + "\n" == KillTemplate && '\n' !in f && f != [] && Holes(f) == 2 && Separated(f)
  {
    var f := "KILL " + ("%zd" + (" " + ("%zd" + "")));
    FormatOf(f, KillTemplate);
    HoleFirst("");
    LiteralPrefix(" ", "%zd" + "");
    HoleFirst(" " + ("%zd" + ""));
    LiteralPrefix("KILL ", "%zd" + (" " + ("%zd" + "")));
  }

  lemma MoveFormat()
    ensures var f := StripNewline(MoveTemplate);
      f + "\n" == MoveTemplate && '\n' !in f && f != [] && Holes(f) == 3 && Separated(f)
  {
    var f := "MOVE " + ("%zd" + (" " + ("%zd" + (" " + ("%zd" + "")))));
    FormatOf(f, MoveTemplate);
    HoleFirst("");
    LiteralPrefix(" ", "%zd" + "");
    HoleFirst(" " + ("%zd" + ""));
    LiteralPrefix(" ", "%zd" + (" " + ("%zd" + "")));
    HoleFirst(" " + ("%zd" + (" " + ("%zd" + ""))));
    LiteralPrefix("MOVE ", "%zd" + (" " + ("%zd" + (" " + ("%zd" + "")))));
  }

  lemma PieceFormat()
    ensures var f := StripNewline(PieceTemplate);
      f + "\n" == PieceTemplate && '\n' !in f && f != [] && Holes(f) == 2 && Separated(f)
  {
    var f := "PIECE " + ("%zd" + (" AT " + ("%zd" + "")));
    FormatOf(f, PieceTemplate);
    HoleFirst("");
    LiteralPrefix(" AT ", "%zd" + "");
    HoleFirst(" AT " + ("%zd" + ""));
    LiteralPrefix("PIECE ", "%zd" + (" AT " + ("%zd" + "")));
  }

  lemma TurnFormat()
    ensures var f := StripNewline(TurnTemplate);
      f + "\n" == TurnTemplate && '\n' !in f && f != [] && Holes(f) == 1 && Separated(f)
  {
    var f := "TURN " + ("%zd" + "");
    FormatOf(f, TurnTemplate);
    HoleFirst("");
    LiteralPrefix("TURN ", "%zd" + "");
  }

  /** `sprintf_s(msg, template, args...)`: the whole line, newline included. */
  function Encode(m: Message): (s: string)
    ensures OneLine(s)
  {
    Templates(m);
    SprintfNewline(Format(m), Args(m));
    SprintfNoNewline(Format(m), Args(m));
    Sprintf(Template(m), Args(m))
  }

  /** The line as the receiving side's framing hands it on: without its newline. */
  function Line(m: Message): string
  {
    Templates(m);
    Sprintf(Format(m), Args(m))
  }

  lemma EncodeLine(m: Message)
    ensures Encode(m) == Line(m) + "\n" && '\n' !in Line(m)
  {
    Templates(m);
    SprintfNewline(Format(m), Args(m));
    SprintfNoNewline(Format(m), Args(m));
  }

  /** Printing a format with one more newline at its end prints one more newline. */
  lemma {:induction false} SprintfNewline(f: string, args: seq<nat>)
    requires |args| == Holes(f)
    ensures Holes(f + "\n") == Holes(f) && Sprintf(f + "\n", args) == Sprintf(f, args) + "\n"
    decreases |f|
  {
    var g := f + "\n";
    if f == [] {
      assert g == "\n";
    } else if StartsHole(f) {
      assert g[3..] == f[3..] + "\n";
      SprintfNewline(f[3..], args[1..]);
      HoleStepNewline(f, args);
    } else {
      assert g[1..] == f[1..] + "\n";
      SprintfNewline(f[1..], args);
      LiteralStepNewline(f, args);
    }
  }

  lemma HoleStepNewline(f: string, args: seq<nat>)
    requires |args| == Holes(f) && StartsHole(f)
    requires Holes(f[3..] + "\n") == Holes(f[3..]) && Sprintf(f[3..] + "\n", args[1..]) == Sprintf(f[3..], args[1..]) + "\n"
    ensures Holes(f + "\n") == Holes(f) && Sprintf(f + "\n", args) == Sprintf(f, args) + "\n"
  {
    var g := f + "\n";
    assert StartsHole(g) && g[3..] == f[3..] + "\n";
    var num := NatToString(args[0]);
    assert Sprintf(g, args) == num + (Sprintf(f[3..], args[1..]) + "\n");
    assert Sprintf(f, args) == num + Sprintf(f[3..], args[1..]);
  }

  lemma LiteralStepNewline(f: string, args: seq<nat>)
    requires |args| == Holes(f) && f != [] && !StartsHole(f)
    requires Holes(f[1..] + "\n") == Holes(f[1..]) && Sprintf(f[1..] + "\n", args) == Sprintf(f[1..], args) + "\n"
    ensures Holes(f + "\n") == Holes(f) && Sprintf(f + "\n", args) == Sprintf(f, args) + "\n"
  {
    var g := f + "\n";
    NewlineKeepsLiteral(f);
    assert Sprintf(g, args) == [f[0]] + Sprintf(f[1..] + "\n", args);
    assert Sprintf(f, args) == [f[0]] + Sprintf(f[1..], args);
    AppendAssoc([f[0]], Sprintf(f[1..], args), "\n");
  }

  /** A newline after a format that starts with a literal character leaves that start as it is. */
  lemma NewlineKeepsLiteral(f: string)
    requires f != [] && !StartsHole(f)
    ensures var g := f + "\n"; !StartsHole(g) && g != [] && g[0] == f[0] && g[1..] == f[1..] + "\n"
  {
    var g := f + "\n";
    if |f| < 3 {
      assert g[|f|] == '\n';
    } else {
      assert g[..3] == f[..3];
    }
  }

  lemma AppendAssoc(a: string, b: string, c: string)
    ensures a + (b + c) == (a + b) + c
  {
  }

  /** Numbers are printed as digits, so a format without a newline prints none. */
  lemma {:induction false} SprintfNoNewline(f: string, args: seq<nat>)
    requires |args| == Holes(f) && '\n' !in f
    ensures '\n' !in Sprintf(f, args)
    decreases |f|
  {
    if f == [] {
    } else if StartsHole(f) {
      assert '\n' !in f[3..] by { assert forall c | c in f[3..] :: c in f; }
      SprintfNoNewline(f[3..], args[1..]);
      var num := NatToString(args[0]);
      assert forall i | 0 <= i < |num| :: IsDigit(num[i]);
    } else {
      assert '\n' !in f[1..] by { assert forall c | c in f[1..] :: c in f; }
      SprintfNoNewline(f[1..], args);
    }
  }

  // ----- Reading -----

  /** `sscanf_s(line, (--template).c_str(), ...)`: the values converted, whose number is what the
      call returns. */
  function ScanLine(template: string, line: string): seq<nat>
  {
    Scan(Directives(StripNewline(template)), line)
  }

  /** `NetworkServer::OnMessage`: KILL, then MOVE, then ACTIVE (compared without its newline), then
      RESTART (compared with its newline); anything else is unhandled. */
  function ServerDecode(line: string): (d: Decoded)
    ensures d.Queued? ==> WellFormed(d.msg) && (d.msg.Kill? || d.msg.Move? || d.msg.Active? || d.msg.Restart?)
  {
    var kill := ScanLine(KillTemplate, line);
    var move := ScanLine(MoveTemplate, line);
    if |kill| == 2 then Construct(Kill(kill[0], kill[1]))
    else if |move| == 3 then Construct(Move(move[0], move[1], move[2]))
    else if line == StripNewline(ActiveTemplate) then Queued(Active)
    else if line == RestartTemplate then Queued(Restart)
    else Unhandled
  }

  /** `NetworkClient::OnMessage`: KILL, MOVE, GAME IS FULL, ACTIVE, PIECE, TURN, RESTART, each
      without its newline; the first that matches wins. */
  function ClientDecode(line: string): (d: Decoded)
    ensures d.Queued? ==> WellFormed(d.msg)
  {
    var kill := ScanLine(KillTemplate, line);
    var move := ScanLine(MoveTemplate, line);
    var piece := ScanLine(PieceTemplate, line);
    var turn := ScanLine(TurnTemplate, line);
    if |kill| == 2 then Construct(Kill(kill[0], kill[1]))
    else if |move| == 3 then Construct(Move(move[0], move[1], move[2]))
    else if line == StripNewline(GameFullTemplate) then Queued(GameFull)
    else if line == StripNewline(ActiveTemplate) then Queued(Active)
    else if |piece| == 2 then Construct(Piece(piece[0], piece[1]))
    else if |turn| == 1 then Construct(Turn(turn[0]))
    else if line == StripNewline(RestartTemplate) then Queued(Restart)
    else Unhandled
  }

  /** A message scans back to its own values, with or without its newline. */
  lemma ScanOwn(m: Message, rest: string)
    requires rest == [] || rest == "\n"
    ensures ScanLine(Template(m), Line(m) + rest) == Args(m)
  {
    Templates(m);
    ScanSprintf(Format(m), Args(m), rest);
  }

  /** A line printed from a message whose template starts with another letter is not matched by
      the template of `other`. */
  lemma ScanOther(other: Message, m: Message, rest: string)
    requires other.Kill? || other.Move? || other.Piece? || other.Turn?
    requires Template(other)[0] != Template(m)[0]
    ensures ScanLine(Template(other), Line(m) + rest) == []
  {
    Templates(other);
    var f := Format(other);
    assert f[0] == Template(other)[0];
    assert !StartsHole(f) && !IsSpace(f[0]);
    LineStarts(m);
    ScanLiteralMismatch(f, Line(m) + rest);
  }

  lemma LineStarts(m: Message)
    ensures Line(m) != [] && Line(m)[0] == Template(m)[0]
  {
    Templates(m);
    assert Format(m)[0] == Template(m)[0];
    assert !StartsHole(Format(m));
    SprintfStartsWithLiteral(Format(m), Args(m), []);
    assert Sprintf(Format(m), Args(m)) + [] == Line(m);
  }

  /** A line printed from a message whose template starts with another letter differs from the
      format of `other`, and from its template. */
  lemma OtherLine(other: Message, m: Message, rest: string)
    requires Template(other)[0] != Template(m)[0]
    ensures Line(m) + rest != Format(other) && Line(m) + rest != Template(other)
  {
    Templates(other);
    assert Format(other)[0] == Template(other)[0];
    LineStarts(m);
    assert (Line(m) + rest)[0] == Line(m)[0];
  }

  /** A format without holes prints as itself. */
  lemma {:induction false} SprintfPlain(f: string)
    requires Holes(f) == 0
    ensures Sprintf(f, []) == f
    decreases |f|
  {
    if f != [] {
      SprintfPlain(f[1..]);
    }
  }

  lemma PlainLine(m: Message)
    requires m.GameFull? || m.Active? || m.Restart?
    ensures Line(m) == Format(m)
  {
    Templates(m);
    SprintfPlain(Format(m));
  }

  /** The host reads back every line the guest sends it: KILL and MOVE lines and ACTIVE. */
  lemma ServerReadsWire(m: Message)
    requires m.Kill? || m.Move? || m.Active?
    ensures ServerDecode(Line(m)) == Construct(m)
  {
    assert Line(m) + [] == Line(m);
    match m
    case Kill(_, _) =>
      ScanOwn(m, []);
    case Move(_, _, _) =>
      ScanOther(Kill(0, 0), m, []);
      ScanOwn(m, []);
    case Active =>
      ScanOther(Kill(0, 0), m, []);
      ScanOther(Move(0, 0, 0), m, []);
      PlainLine(m);
  }

  /** The host reads back the lines its own board hands it, newline included: KILL, MOVE and RESTART. */
  lemma ServerReadsLocal(m: Message)
    requires m.Kill? || m.Move? || m.Restart?
    ensures ServerDecode(Encode(m)) == Construct(m)
  {
    EncodeLine(m);
    match m
    case Kill(_, _) =>
      ScanOwn(m, "\n");
    case Move(_, _, _) =>
      ScanOther(Kill(0, 0), m, "\n");
      ScanOwn(m, "\n");
    case Restart =>
      ScanOther(Kill(0, 0), m, "\n");
      ScanOther(Move(0, 0, 0), m, "\n");
      OtherLine(Active, m, "\n");
      Templates(m);
      PlainLine(m);
  }

  /** The host recognises RESTART only with its newline, which a line read from a connection never
      has: a RESTART line from the guest is unhandled. */
  lemma ServerRestartNeedsNewline(line: string)
    ensures ServerDecode(line) == Queued(Restart) <==> line == RestartTemplate
  {
    if line == RestartTemplate {
      EncodeLine(Restart);
      PlainLine(Restart);
      Templates(Restart);
      ServerReadsLocal(Restart);
    }
  }

  /** The guest reads back every message, as its framing hands the line on. */
  lemma ClientReadsWire(m: Message)
    ensures ClientDecode(Line(m)) == Construct(m)
  {
    var line := Line(m);
    assert line + [] == line;
    match m
    case Kill(_, _) =>
      ScanOwn(m, []);
    case Move(_, _, _) =>
      ScanOther(Kill(0, 0), m, []);
      ScanOwn(m, []);
    case GameFull =>
      ClientSkipsKillMove(m);
      PlainLine(m);
    case Active =>
      ClientSkipsKillMove(m);
      OtherLine(GameFull, m, []);
      PlainLine(m);
    case Piece(_, _) =>
      ClientSkipsKillMove(m);
      ClientSkipsPlain(m);
      ScanOwn(m, []);
    case Turn(_) =>
      ClientSkipsKillMove(m);
      ClientSkipsPlain(m);
      ScanOther(Piece(0, 0), m, []);
      ScanOwn(m, []);
    case Restart =>
      ClientSkipsKillMove(m);
      ClientSkipsPlain(m);
      ScanOther(Piece(0, 0), m, []);
      ScanOther(Turn(0), m, []);
      PlainLine(m);
  }

  lemma ClientSkipsKillMove(m: Message)
    requires !m.Kill? && !m.Move?
    ensures |ScanLine(KillTemplate, Line(m))| != 2 && |ScanLine(MoveTemplate, Line(m))| != 3
  {
    assert Line(m) + [] == Line(m);
    ScanOther(Kill(0, 0), m, []);
    ScanOther(Move(0, 0, 0), m, []);
  }

  lemma ClientSkipsPlain(m: Message)
    requires m.Piece? || m.Turn? || m.Restart?
    ensures Line(m) != StripNewline(GameFullTemplate) && Line(m) != StripNewline(ActiveTemplate)
  {
    assert Line(m) + [] == Line(m);
    OtherLine(GameFull, m, []);
    OtherLine(Active, m, []);
  }

  // ----- Streams of lines -----

  /** The bytes of the messages, one after the other. */
  function Concat(messages: seq<Message>): string
  {
    if messages == [] then [] else Encode(messages[0]) + Concat(messages[1..])
  }

  /** Appending a message appends its bytes. */
  lemma {:induction false} ConcatAppend(messages: seq<Message>, m: Message)
    ensures Concat(messages + [m]) == Concat(messages) + Encode(m)
    decreases |messages|
  {
    if messages == [] {
      assert [] + [m] == [m];
      assert Concat([m]) == Encode(m) + Concat([]);
    } else {
      assert (messages + [m])[1..] == messages[1..] + [m];
      ConcatAppend(messages[1..], m);
    }
  }

  /** The lines of the messages, as the receiving side's framing hands them on. */
  function LinesOf(messages: seq<Message>): (lines: seq<string>)
    ensures |lines| == |messages| && forall i | 0 <= i < |lines| :: lines[i] == Line(messages[i])
  {
    seq(|messages|, i requires 0 <= i < |messages| => Line(messages[i]))
  }

  /** The bytes of a run of messages are their lines, each followed by a newline, and none of those
      lines holds a newline. */
  lemma {:induction false} ConcatJoined(messages: seq<Message>)
    ensures Framing.Joined(LinesOf(messages)) == Concat(messages) && Framing.Lines(LinesOf(messages))
    decreases |messages|
  {
    if messages != [] {
      ConcatJoined(messages[1..]);
      EncodeLine(messages[0]);
      assert LinesOf(messages)[1..] == LinesOf(messages[1..]);
      assert Framing.Lines(LinesOf(messages)) by {
        forall i | 0 <= i < |messages| ensures '\n' !in LinesOf(messages)[i] {
          EncodeLine(messages[i]);
        }
      }
    }
  }
}
