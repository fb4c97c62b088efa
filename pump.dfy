/** One client connection (websocket-client.go): the outbound queue the
    coordinator fills, the decoding of inbound frames into messages, and the
    batching of queued replies into one outbound frame. */
module Pump {
  import opened Utils
  import opened Protocol

  /** Capacity of a client's outbound queue. */
  const SendCapacity: nat := 256

  /** What a client asks for. `LookUp` is the zero value, so it is also what
      an unrecognised verb yields. */
  datatype Purpose = LookUp | UpdateValue | UpdateConfig

  /** A connected client: the file it is bound to and its outbound queue,
      which the coordinator may close. */
  class Client {
    const fileID: string
    var send: seq<Reply>
    var closed: bool

    constructor (fileID: string)
      ensures this.fileID == fileID && send == [] && !closed
    {
      this.fileID := fileID;
      send := [];
      closed := false;
    }

    /** `client.send <- r`: only on an open queue (a send on a closed one
        panics), and only once there is room (until then the sender waits). */
    method Enqueue(r: Reply)
      requires !closed && |send| < SendCapacity
      modifies this`send
      ensures send == old(send) + [r]
    {
      send := send + [r];
    }

    /** `close(client.send)`: closing twice panics, so it requires an open queue. */
    method Close()
      requires !closed
      modifies this`closed
      ensures closed
    {
      closed := true;
    }

    /** One turn of the writer on a ready queue: a closed, drained queue yields
        the close frame; otherwise the first reply is written, followed by
        "\n" and each reply queued at that moment, all of which are dequeued. */
    method WriteStep(encode: Reply -> string) returns (out: WriteOutcome)
      requires closed || send != []
      modifies this`send
      ensures old(send) == [] ==> out == CloseFrame
      ensures old(send) != [] ==> out == TextFrame(Join(Encoded(encode, old(send)), "\n"))
      ensures send == []
    {
      if send == [] {
        out := CloseFrame;
        return;
      }
      var message := send[0];
      send := send[1..];
      var text := encode(message);
      assert Encoded(encode, old(send)[..1]) == [text];
      var n := |send|;
      var i := 0;
      while i < n
        invariant 0 <= i <= n && send == old(send)[1 + i..]
        invariant text == Join(Encoded(encode, old(send)[..1 + i]), "\n")
      {
        var next := send[0];
        send := send[1..];
        EncodedSnoc(encode, old(send)[..1 + i], next);
        assert old(send)[..1 + i] + [next] == old(send)[..2 + i];
        JoinSnoc(Encoded(encode, old(send)[..1 + i]), encode(next), "\n");
        text := text + "\n" + encode(next);
        i := i + 1;
      }
      assert old(send)[..1 + n] == old(send);
      out := TextFrame(text);
    }
  }

  datatype WriteOutcome = CloseFrame | TextFrame(text: string)

  /** A decoded inbound frame, as forwarded to the coordinator. */
  datatype Message = Message(client: Client, purpose: Purpose, payload: string)

  function Encoded(encode: Reply -> string, rs: seq<Reply>): (r: seq<string>)
    ensures |r| == |rs|
  {
    seq(|rs|, i requires 0 <= i < |rs| => encode(rs[i]))
  }

  lemma EncodedSnoc(encode: Reply -> string, rs: seq<Reply>, x: Reply)
    ensures Encoded(encode, rs + [x]) == Encoded(encode, rs) + [encode(x)]
  {
  }

  // ---------------------------------------------------------------------
  // Splitting and joining

  /** Position of the first `c` in `s`. */
  function IndexOf(s: string, c: char): (i: nat)
    requires c in s
    ensures i < |s| && s[i] == c && c !in s[..i]
  {
    if s[0] == c then 0 else 1 + IndexOf(s[1..], c)
  }

  /** The first `c` of `a + [c] + b` is the one after `a` when `a` has none. */
  lemma {:induction false} IndexOfAfter(a: string, c: char, b: string)
    requires c !in a
    ensures c in a + [c] + b && IndexOf(a + [c] + b, c) == |a|
  {
    var s := a + [c] + b;
    assert s[|a|] == c;
    if a != [] {
      assert s[1..] == a[1..] + [c] + b;
      IndexOfAfter(a[1..], c, b);
    }
  }

  /** `bytes.Split(s, sep)`: the pieces between occurrences of `sep`; always at least one. */
  function Split(s: string, sep: char): (parts: seq<string>)
    ensures |parts| >= 1
    ensures forall k :: 0 <= k < |parts| ==> sep !in parts[k]
    decreases |s|
  {
    if sep in s then
      var i := IndexOf(s, sep);
      [s[..i]] + Split(s[i + 1..], sep)
    else [s]
  }

  /** Join undoes Split. */
  lemma {:induction false} JoinSplit(s: string, sep: char)
    ensures Join(Split(s, sep), [sep]) == s
    decreases |s|
  {
    if sep in s {
      var i := IndexOf(s, sep);
      var rest := Split(s[i + 1..], sep);
      JoinSplit(s[i + 1..], sep);
      assert Split(s, sep) == [s[..i]] + rest;
      assert ([s[..i]] + rest)[1..] == rest;
      assert s == s[..i] + [sep] + s[i + 1..];
    }
  }

  /** Split undoes Join when no part contains the separator. */
  lemma {:induction false} SplitJoin(parts: seq<string>, sep: char)
    requires |parts| >= 1
    requires forall k :: 0 <= k < |parts| ==> sep !in parts[k]
    ensures Split(Join(parts, [sep]), sep) == parts
  {
    if |parts| > 1 {
      var head := parts[0];
      var tail := Join(parts[1..], [sep]);
      var s := Join(parts, [sep]);
      assert s == head + [sep] + tail;
      IndexOfAfter(head, sep, tail);
      var i := IndexOf(s, sep);
      assert i == |head|;
      assert s[..i] == head;
      assert s[i + 1..] == tail;
      assert Split(s, sep) == [head] + Split(tail, sep);
      SplitJoin(parts[1..], sep);
      assert parts == [head] + parts[1..];
    }
  }

  /** A frame written by WriteStep splits on "\n" back into the encoded
      replies, provided the encoder never emits a newline. */
  lemma BatchSplitsBack(encode: Reply -> string, rs: seq<Reply>)
    requires rs != []
    requires forall r :: '\n' !in encode(r)
    ensures Split(Join(Encoded(encode, rs), "\n"), '\n') == Encoded(encode, rs)
  {
    SplitJoin(Encoded(encode, rs), '\n');
  }

  // ---------------------------------------------------------------------
  // Frame decoding

  /** Go's `unicode.IsSpace`, which `bytes.TrimSpace` uses. */
  predicate IsSpace(c: char)
  {
    c == '\t' || c == '\n' || c == '\U{000B}' || c == '\U{000C}' || c == '\r' || c == ' '
    || c == '\U{0085}' || c == '\U{00A0}' || c == '\U{1680}'
    || ('\U{2000}' <= c <= '\U{200A}')
    || c == '\U{2028}' || c == '\U{2029}' || c == '\U{202F}' || c == '\U{205F}' || c == '\U{3000}'
  }

  /** `bytes.ReplaceAll(s, "\n", " ")`. */
  function ReplaceNewlines(s: string): (r: string)
    ensures |r| == |s| && '\n' !in r
    ensures forall i :: 0 <= i < |s| && s[i] != '\n' ==> r[i] == s[i]
    ensures forall i :: 0 <= i < |s| && s[i] == '\n' ==> r[i] == ' '
  {
    seq(|s|, i requires 0 <= i < |s| => if s[i] == '\n' then ' ' else s[i])
  }

  /** Drops leading white space. */
  function TrimLeftSpace(s: string): string
    decreases |s|
  {
    if s != [] && IsSpace(s[0]) then TrimLeftSpace(s[1..]) else s
  }

  /** Drops trailing white space. */
  function TrimRightSpace(s: string): string
    decreases |s|
  {
    if s != [] && IsSpace(s[|s| - 1]) then TrimRightSpace(s[..|s| - 1]) else s
  }

  /** `bytes.TrimSpace`. */
  function TrimSpace(s: string): string
  {
    TrimRightSpace(TrimLeftSpace(s))
  }

  /** A raw frame with newlines turned into spaces and the ends trimmed. */
  function Normalize(raw: string): string
  {
    TrimSpace(ReplaceNewlines(raw))
  }

  /** TrimLeftSpace keeps a suffix of `s`: everything dropped is white space,
      and what is kept does not start with white space. */
  lemma {:induction false} TrimLeftSpaceShape(s: string)
    ensures var r := TrimLeftSpace(s);
      && |r| <= |s| && r == s[|s| - |r|..]
      && (forall k :: 0 <= k < |s| - |r| ==> IsSpace(s[k]))
      && (r != [] ==> !IsSpace(r[0]))
    decreases |s|
  {
    if s != [] && IsSpace(s[0]) {
      TrimLeftSpaceShape(s[1..]);
    }
  }

  /** TrimRightSpace keeps a prefix of `s`: everything dropped is white space,
      and what is kept does not end with white space. */
  lemma {:induction false} TrimRightSpaceShape(s: string)
    ensures var r := TrimRightSpace(s);
      && |r| <= |s| && r == s[..|r|]
      && (forall k :: |r| <= k < |s| ==> IsSpace(s[k]))
      && (r != [] ==> !IsSpace(r[|r| - 1]))
    decreases |s|
  {
    if s != [] && IsSpace(s[|s| - 1]) {
      TrimRightSpaceShape(s[..|s| - 1]);
    }
  }

  /** TrimSpace keeps a contiguous piece of `s` that neither starts nor ends
      with white space; everything dropped on either side is white space. */
  lemma TrimSpaceShape(s: string)
    ensures var r := TrimSpace(s);
      var lo := |s| - |TrimLeftSpace(s)|;
      && 0 <= lo <= lo + |r| <= |s| && r == s[lo..lo + |r|]
      && (forall k :: 0 <= k < lo ==> IsSpace(s[k]))
      && (forall k :: lo + |r| <= k < |s| ==> IsSpace(s[k]))
      && (r != [] ==> !IsSpace(r[0]) && !IsSpace(r[|r| - 1]))
  {
    var left := TrimLeftSpace(s);
    var r := TrimRightSpace(left);
    TrimLeftSpaceShape(s);
    TrimRightSpaceShape(left);
    var lo := |s| - |left|;
    assert r == s[lo..][..|r|];
    forall k | lo + |r| <= k < |s|
      ensures IsSpace(s[k])
    {
      assert s[k] == left[k - lo];
    }
    if r != [] {
      assert r[0] == left[0];
    }
  }

  /** A normalised frame holds no newline. */
  lemma NormalizeNoNewline(raw: string)
    ensures '\n' !in Normalize(raw)
  {
    var r := ReplaceNewlines(raw);
    TrimSpaceShape(r);
    var n := TrimSpace(r);
    var lo := |r| - |TrimLeftSpace(r)|;
    assert forall i :: 0 <= i < |n| ==> n[i] == r[lo + i];
  }

  /** The verb switch. */
  function PurposeOf(verb: string): Purpose
  {
    if verb == "look-up" then LookUp
    else if verb == "update-value" then UpdateValue
    else if verb == "update-config" then UpdateConfig
    else LookUp
  }

  /** The three verbs map to their purposes, and every other verb falls back to `LookUp`. */
  lemma PurposeOfVerbs(verb: string)
    ensures PurposeOf("look-up") == LookUp
    ensures PurposeOf("update-value") == UpdateValue
    ensures PurposeOf("update-config") == UpdateConfig
    ensures PurposeOf(verb) == LookUp <==> verb != "update-value" && verb != "update-config"
  {
  }

  /** The purpose and payload of a decoded frame. */
  datatype Frame = Frame(purpose: Purpose, payload: string)

  /** The first space-separated segment of the normalised frame selects the
      purpose; the remaining segments, re-joined by spaces, are the payload. */
  function DecodeFrame(raw: string): Frame
  {
    var segments := Split(Normalize(raw), ' ');
    Frame(PurposeOf(segments[0]), Join(segments[1..], " "))
  }

  /** The verb is the text before the first space of the normalised frame
      (all of it if there is none) and the payload is exactly the text after
      that space, runs of spaces included; without a space the payload is
      empty. The payload holds no newline. */
  lemma {:induction false} DecodeFrameParts(raw: string)
    ensures var n := Normalize(raw);
      if ' ' in n then
        DecodeFrame(raw) == Frame(PurposeOf(n[..IndexOf(n, ' ')]), n[IndexOf(n, ' ') + 1..])
      else
        DecodeFrame(raw) == Frame(PurposeOf(n), "")
    ensures '\n' !in DecodeFrame(raw).payload
  {
    var n := Normalize(raw);
    NormalizeNoNewline(raw);
    if ' ' in n {
      var i := IndexOf(n, ' ');
      var rest := Split(n[i + 1..], ' ');
      assert Split(n, ' ') == [n[..i]] + rest;
      assert ([n[..i]] + rest)[1..] == rest;
      JoinSplit(n[i + 1..], ' ');
      assert forall c :: c in n[i + 1..] ==> c in n;
    }
  }

  /** An empty frame, or one of white space only, is a look-up with no payload. */
  lemma EmptyFrameIsLookUp(raw: string)
    requires forall i :: 0 <= i < |raw| ==> IsSpace(raw[i])
    ensures DecodeFrame(raw) == Frame(LookUp, "")
  {
    var r := ReplaceNewlines(raw);
    assert forall i :: 0 <= i < |r| ==> IsSpace(r[i]);
    TrimLeftSpaceShape(r);
    assert TrimLeftSpace(r) == [];
    DecodeFrameParts(raw);
  }

  /** The message the reader forwards for one raw frame. */
  function Forward(client: Client, raw: string): Message
  {
    var frame := DecodeFrame(raw);
    Message(client, frame.purpose, frame.payload)
  }

  /** The read loop: every frame read is forwarded as exactly one message
      carrying the reading client, in order. */
  method ReadLoop(client: Client, frames: seq<string>) returns (forwarded: seq<Message>)
    ensures |forwarded| == |frames|
    ensures forall i :: 0 <= i < |frames| ==> forwarded[i] == Forward(client, frames[i])
  {
    forwarded := [];
    var i := 0;
    while i < |frames|
      invariant 0 <= i <= |frames| && |forwarded| == i
      invariant forall j :: 0 <= j < i ==> forwarded[j] == Forward(client, frames[j])
    {
      forwarded := forwarded + [Forward(client, frames[i])];
      i := i + 1;
    }
  }
}
