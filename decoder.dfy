/** The message decoder of `ExternalEventReceiver.ProcessMessage`: a received
    text becomes a command name and its parameters. */
module Decoder {
  import opened Text

  /** A decoded message: the lower-cased first segment and the remaining
      segments, verbatim. */
  datatype Command = Command(name: string, parameters: seq<string>)

  datatype DecodeResult = Decoded(command: Command) | InvalidMessageFormat

  /** The message with every `"` removed and the trailing white space trimmed. */
  function Clean(message: string): (r: string)
    ensures '"' !in r
    ensures r == [] || !IsWhiteSpace(r[|r| - 1])
  {
    TrimEnd(RemoveAll(message, '"'))
  }

  /** The cleaned message split on `:`. */
  function Segments(message: string): seq<string> {
    Split(Clean(message), ':')
  }

  /** Decodes a message; the empty-split branch of the source is kept and
      never taken. */
  function Decode(message: string): (r: DecodeResult)
    ensures r.Decoded?
  {
    var parts := Segments(message);
    if |parts| == 0 then InvalidMessageFormat
    else Decoded(Command(ToLower(parts[0]), parts[1..]))
  }

  /** The segments are separator- and quote-free and join back, with `:`, to
      the cleaned message; there is one more segment than `:` characters. */
  lemma SegmentsRoundTrip(message: string)
    ensures |Segments(message)| >= 1
    ensures Join(Segments(message), ':') == Clean(message)
    ensures |Segments(message)| == multiset(Clean(message))[':'] + 1
    ensures forall i :: 0 <= i < |Segments(message)| ==>
              ':' !in Segments(message)[i] && '"' !in Segments(message)[i]
  {
    var c := Clean(message);
    JoinSplit(c, ':');
    SplitCount(c, ':');
    SplitPartsSeparatorFree(c, ':');
    forall i | 0 <= i < |Segments(message)|
      ensures '"' !in Segments(message)[i]
    {
      SegmentNoChar(Segments(message), ':', i, '"');
    }
  }

  /** A character absent from a joined string is absent from each part. */
  lemma {:induction false} SegmentNoChar(parts: seq<string>, sep: char, i: nat, c: char)
    requires i < |parts|
    requires c !in Join(parts, sep)
    ensures c !in parts[i]
  {
    if |parts| > 1 {
      if i > 0 {
        SegmentNoChar(parts[1..], sep, i - 1, c);
      }
    }
  }

  /** What the decoder promises: the name is the first segment lower-cased,
      the parameters are the other segments in order, with their case kept,
      as many as the cleaned message has `:` characters, and none holds `:`
      or `"`. */
  lemma DecodeShape(message: string)
    ensures Decode(message).Decoded?
    ensures var cmd := Decode(message).command;
      && Join([Segments(message)[0]] + cmd.parameters, ':') == Clean(message)
      && cmd.name == ToLower(Segments(message)[0])
      && |cmd.parameters| == multiset(Clean(message))[':']
      && ':' !in cmd.name && '"' !in cmd.name
      && forall p :: p in cmd.parameters ==> ':' !in p && '"' !in p
  {
    var parts := Segments(message);
    SegmentsRoundTrip(message);
    assert [parts[0]] + parts[1..] == parts;
    ToLowerKeepsPunctuation(parts[0], ':');
    ToLowerKeepsPunctuation(parts[0], '"');
  }

  /** A message of separators and quotes only decodes to the empty name. */
  lemma DecodeEmpty(message: string)
    requires forall i :: 0 <= i < |message| ==> message[i] == ':' || message[i] == '"'
    ensures Decode(message).command.name == ""
  {
    var c := Clean(message);
    OnlySeparators(message);
    JoinSplit(c, ':');
    var parts := Split(c, ':');
    if parts[0] != "" {
      SplitPartsSeparatorFree(c, ':');
      HeadOfJoin(parts, ':');
      assert false;
    }
  }

  /** Without its quotes, a message of separators and quotes is separators
      only. */
  lemma OnlySeparators(message: string)
    requires forall i :: 0 <= i < |message| ==> message[i] == ':' || message[i] == '"'
    ensures forall i :: 0 <= i < |Clean(message)| ==> Clean(message)[i] == ':'
  {
    var r := RemoveAll(message, '"');
    forall i | 0 <= i < |r|
      ensures r[i] == ':'
    {
      assert multiset(r)[r[i]] > 0;
      if r[i] != ':' {
        assert false;
      }
    }
  }

  /** A joined string starts with its first part. */
  lemma HeadOfJoin(parts: seq<string>, sep: char)
    requires |parts| >= 1
    ensures parts[0] <= Join(parts, sep)
  {
  }

  /** The wire form of a command: its fields joined with `:`. */
  function Encode(cmd: Command): string {
    Join([cmd.name] + cmd.parameters, ':')
  }

  /** A command the protocol can carry: a lower-case name, no `:` and no `"`
      in any field, and a last field that does not end in white space. */
  predicate Encodable(cmd: Command) {
    var fields := [cmd.name] + cmd.parameters;
    && (forall i :: 0 <= i < |cmd.name| ==> !IsUpperAscii(cmd.name[i]))
    && (forall i :: 0 <= i < |fields| ==> ':' !in fields[i] && '"' !in fields[i])
    && (fields[|fields| - 1] == [] || !IsWhiteSpace(fields[|fields| - 1][|fields[|fields| - 1]| - 1]))
  }

  /** Decoding the wire form of an encodable command gives the command back. */
  lemma DecodeEncode(cmd: Command)
    requires Encodable(cmd)
    ensures Decode(Encode(cmd)) == Decoded(cmd)
  {
    var fields := [cmd.name] + cmd.parameters;
    var e := Encode(cmd);
    forall i | 0 <= i < |fields| ensures '"' !in fields[i] { }
    JoinNoChar(fields, ':', '"');
    assert RemoveAll(e, '"') == e;
    JoinEnd(fields, ':');
    TrimEndFixed(e);
    assert Clean(e) == e;
    SplitJoin(fields, ':');
    ToLowerFixed(cmd.name);
    assert fields[1..] == cmd.parameters;
  }

  /** Joining separator-free parts introduces only the separator. */
  lemma {:induction false} JoinNoChar(parts: seq<string>, sep: char, c: char)
    requires c != sep
    requires forall i :: 0 <= i < |parts| ==> c !in parts[i]
    ensures c !in Join(parts, sep)
  {
    if |parts| > 1 {
      JoinNoChar(parts[1..], sep, c);
    }
  }

  /** A join ends in white space only if its last part does. */
  lemma {:induction false} JoinEnd(parts: seq<string>, sep: char)
    requires |parts| >= 1 && !IsWhiteSpace(sep)
    requires var l := parts[|parts| - 1]; l == [] || !IsWhiteSpace(l[|l| - 1])
    ensures var j := Join(parts, sep); j == [] || !IsWhiteSpace(j[|j| - 1])
  {
    if |parts| > 1 {
      JoinEnd(parts[1..], sep);
    }
  }

  /** Re-encoding a decoded message whose first segment has no upper-case
      letter gives back the cleaned message. */
  lemma EncodeDecode(message: string)
    requires forall i :: 0 <= i < |Segments(message)[0]| ==> !IsUpperAscii(Segments(message)[0][i])
    ensures Encode(Decode(message).command) == Clean(message)
  {
    var parts := Segments(message);
    SegmentsRoundTrip(message);
    ToLowerFixed(parts[0]);
    assert [parts[0]] + parts[1..] == parts;
  }
}
