/** Newline framing of the byte stream between peers (`send_to_peer`, `handle_peer_connection`). */
module Framing {
  import opened Words

  predicate HasNewline(s: string) {
    exists i :: 0 <= i < |s| && s[i] == '\n'
  }

  /** `accumulated.find('\n')` */
  function FirstNewline(s: string): (k: nat)
    requires HasNewline(s)
    ensures k < |s| && s[k] == '\n' && forall i :: 0 <= i < k ==> s[i] != '\n'
  {
    if s[0] == '\n' then 0
    else
      assert HasNewline(s[1..]) by {
        var i :| 0 <= i < |s| && s[i] == '\n';
        assert s[1..][i - 1] == '\n';
      }
      1 + FirstNewline(s[1..])
  }

  function NonEmpty(line: string): seq<string> {
    if line == "" then [] else [line]
  }

  /** The complete non-empty lines of a text, and what follows its last newline. */
  function Lines(s: string): (r: (seq<string>, string))
    ensures !HasNewline(r.1)
    decreases |s|
  {
    if !HasNewline(s) then ([], s)
    else
      var k := FirstNewline(s);
      var (messages, rest) := Lines(s[k + 1..]);
      (NonEmpty(s[..k]) + messages, rest)
  }

  lemma NewlineInFront(s: string, t: string)
    requires HasNewline(s)
    ensures HasNewline(s + t) && FirstNewline(s + t) == FirstNewline(s)
  {
    var k := FirstNewline(s);
    assert (s + t)[k] == '\n';
    assert forall i :: 0 <= i < k ==> (s + t)[i] != '\n';
  }

  lemma FirstMessage(s: string)
    requires HasNewline(s)
    ensures var k := FirstNewline(s);
            Lines(s) == (NonEmpty(s[..k]) + Lines(s[k + 1..]).0, Lines(s[k + 1..]).1) && !HasNewline(s[..k])
  {
  }

  lemma CutFront(s: string, t: string, k: nat)
    requires k < |s|
    ensures (s + t)[..k] == s[..k] && (s + t)[k + 1..] == s[k + 1..] + t
  {
  }

  lemma Associative(a: seq<string>, b: seq<string>, d: seq<string>)
    ensures a + (b + d) == a + b + d
  {
  }

  lemma Regrouped(a: seq<string>, b: seq<string>, d: seq<string>, left: string, all: (seq<string>, string))
    requires all == (a + (b + d), left)
    ensures all == (a + b + d, left)
  {
    Associative(a, b, d);
  }

  lemma Unfinished(s: string, t: string)
    requires !HasNewline(s)
    ensures Lines(s) == ([], s) && Lines(s + t) == ([] + Lines(s + t).0, Lines(s + t).1)
  {
    assert [] + Lines(s + t).0 == Lines(s + t).0;
  }

  /** More text only continues from the unfinished line. */
  lemma {:induction false} LinesAppend(s: string, t: string)
    ensures Lines(s + t) == (Lines(s).0 + Lines(Lines(s).1 + t).0, Lines(Lines(s).1 + t).1)
    decreases |s|
  {
    if HasNewline(s) {
      var k := FirstNewline(s);
      NewlineInFront(s, t);
      CutFront(s, t, k);
      FirstMessage(s);
      FirstMessage(s + t);
      LinesAppend(s[k + 1..], t);
      var (more, rest) := Lines(s[k + 1..]);
      Regrouped(NonEmpty(s[..k]), more, Lines(rest + t).0, Lines(rest + t).1, Lines(s + t));
    } else {
      Unfinished(s, t);
    }
  }

  /** What a connection hands to the handler while the chunks arrive one by one. */
  function Receive(accumulated: string, chunks: seq<string>): (seq<string>, string)
    decreases |chunks|
  {
    if chunks == [] then ([], accumulated)
    else
      var (first, rest) := Lines(accumulated + chunks[0]);
      var (more, left) := Receive(rest, chunks[1..]);
      (first + more, left)
  }

  /** However the stream is cut into chunks, the handler sees the same messages in the same order and
      the same unfinished line stays behind. */
  lemma {:induction false} ChunkingIsIrrelevant(accumulated: string, chunks: seq<string>)
    requires !HasNewline(accumulated)
    ensures Receive(accumulated, chunks) == Lines(accumulated + Concat(chunks))
    decreases |chunks|
  {
    if chunks == [] {
      assert accumulated + "" == accumulated;
    } else {
      var s, t := accumulated + chunks[0], Concat(chunks[1..]);
      assert accumulated + Concat(chunks) == s + t;
      LinesAppend(s, t);
      ChunkingIsIrrelevant(Lines(s).1, chunks[1..]);
    }
  }

  /** The stream that `send_to_peer` writes. */
  function Sent(messages: seq<string>): string {
    if messages == [] then "" else messages[0] + "\n" + Sent(messages[1..])
  }

  function DropEmpty(messages: seq<string>): seq<string> {
    if messages == [] then [] else NonEmpty(messages[0]) + DropEmpty(messages[1..])
  }

  lemma {:induction false} LinesOfSent(messages: seq<string>)
    requires forall m :: m in messages ==> !HasNewline(m)
    ensures Lines(Sent(messages)) == (DropEmpty(messages), "")
  {
    if messages != [] {
      var m, stream := messages[0], Sent(messages);
      LinesOfSent(messages[1..]);
      assert m in messages && !HasNewline(m);
      assert stream[|m|] == '\n';
      assert forall i :: 0 <= i < |m| ==> stream[i] == m[i] && m[i] != '\n';
      assert HasNewline(stream) && FirstNewline(stream) == |m|;
      assert stream[..|m|] == m && stream[|m| + 1..] == Sent(messages[1..]);
    }
  }

  /** Any list of newline-free messages is recovered, however the stream is cut. */
  lemma SentIsReceived(messages: seq<string>, chunks: seq<string>)
    requires forall m :: m in messages ==> m != "" && !HasNewline(m)
    requires Concat(chunks) == Sent(messages)
    ensures Receive("", chunks) == (messages, "")
  {
    ChunkingIsIrrelevant("", chunks);
    assert "" + Concat(chunks) == Sent(messages);
    LinesOfSent(messages);
    NothingToDrop(messages);
  }

  lemma {:induction false} NothingToDrop(messages: seq<string>)
    requires forall m :: m in messages ==> m != ""
    ensures DropEmpty(messages) == messages
  {
    if messages != [] {
      assert messages == [messages[0]] + messages[1..] && messages[0] in messages;
      assert forall m :: m in messages[1..] ==> m in messages;
      NothingToDrop(messages[1..]);
    }
  }

  /** The two nested loops: append a chunk, then cut off complete lines from the front. */
  method ReceiveLoop(chunks: seq<string>) returns (handled: seq<string>, accumulated: string)
    ensures (handled, accumulated) == Receive("", chunks)
  {
    handled, accumulated := [], "";
    assert chunks[0..] == chunks && handled + Receive("", chunks).0 == Receive("", chunks).0;
    for i := 0 to |chunks|
      invariant Receive("", chunks) ==
                (handled + Receive(accumulated, chunks[i..]).0, Receive(accumulated, chunks[i..]).1)
    {
      assert chunks[i..][1..] == chunks[i + 1..];
      ghost var whole, more := accumulated + chunks[i], Receive(Lines(accumulated + chunks[i]).1, chunks[i + 1..]).0;
      ghost var before := handled;
      assert before + (Lines(whole).0 + more) == before + Lines(whole).0 + more;
      var messages;
      messages, accumulated := CutLines(accumulated + chunks[i]);
      handled := handled + messages;
    }
    assert chunks[|chunks|..] == [] && handled + [] == handled;
  }

  method CutLines(text: string) returns (messages: seq<string>, accumulated: string)
    ensures (messages, accumulated) == Lines(text)
  {
    messages, accumulated := [], text;
    assert messages + Lines(text).0 == Lines(text).0;
    while HasNewline(accumulated)
      invariant Lines(text) == (messages + Lines(accumulated).0, Lines(accumulated).1)
      decreases |accumulated|
    {
      CutOne(text, messages, accumulated);
      var k := FirstNewline(accumulated);
      var message := accumulated[..k];
      accumulated := accumulated[k + 1..];
      if message != "" {
        messages := messages + [message];
      } else {
        assert messages + NonEmpty(message) == messages;
      }
    }
    assert messages + [] == messages;
  }

  lemma CutOne(text: string, messages: seq<string>, accumulated: string)
    requires HasNewline(accumulated) && Lines(text) == (messages + Lines(accumulated).0, Lines(accumulated).1)
    ensures var k := FirstNewline(accumulated);
            Lines(text) == (messages + NonEmpty(accumulated[..k]) + Lines(accumulated[k + 1..]).0,
                            Lines(accumulated[k + 1..]).1)
  {
    FirstMessage(accumulated);
    var k := FirstNewline(accumulated);
    var (more, rest) := Lines(accumulated[k + 1..]);
    Regrouped(messages, NonEmpty(accumulated[..k]), more, rest, Lines(text));
  }

  predicate IsMessage(line: string) {
    line != "" && !HasNewline(line)
  }

  lemma AppendMessages(first: seq<string>, more: seq<string>)
    requires forall line :: line in first ==> IsMessage(line)
    requires forall line :: line in more ==> IsMessage(line)
    ensures forall line :: line in first + more ==> IsMessage(line)
  {
  }

  /** No message is empty or holds a newline. */
  lemma {:induction false} MessagesAreLines(s: string)
    ensures forall line :: line in Lines(s).0 ==> IsMessage(line)
    decreases |s|
  {
    if HasNewline(s) {
      var k := FirstNewline(s);
      FirstMessage(s);
      MessagesAreLines(s[k + 1..]);
      AppendMessages(NonEmpty(s[..k]), Lines(s[k + 1..]).0);
    }
  }
}
