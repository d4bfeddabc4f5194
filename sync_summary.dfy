/** The summary the `syncstructure` command sends once the pass is over: a header followed by
    the log lines, packed greedily into messages of at most 1800 UTF-16 code units. A line is
    appended to the buffer when the buffer, a line feed and the line still fit; otherwise the
    buffer is sent first and the line starts the next one. */
module SyncSummary {
  import opened JsSemantics

  /** The packing bound (bot/commands/syncstructure.js:211). */
  const MAX := 1800

  /** `Array.prototype.join('\n')`: the items with a line feed between consecutive ones. */
  function JoinLines(xs: seq<string>): string {
    Join(xs, "\n")
  }

  lemma JoinLinesSnoc(xs: seq<string>, l: string)
    requires xs != []
    ensures JoinLines(xs + [l]) == JoinLines(xs) + "\n" + l
  {
    JoinSnoc(xs, l, "\n");
  }

  /** The chunker part way through the lines: the messages already sent, the buffer, and for
      each sent message and for the buffer, the index of the item (the header is item 0, line
      `i` is item `i + 1`) it starts with. */
  datatype Packing = Packing(sent: seq<string>, buf: string, starts: seq<nat>)

  /** The chunker's state after the given lines, as the loop at
      bot/commands/syncstructure.js:212-218 leaves it. */
  function Pack(header: string, lines: seq<string>): (p: Packing)
    ensures |p.starts| == |p.sent| + 1
    decreases |lines|
  {
    if lines == [] then Packing([], header, [0])
    else Feed(Pack(header, lines[..|lines| - 1]), lines[|lines| - 1], |lines|)
  }

  /** One turn of the loop on line `l`, item number `at`: send the buffer first when the
      buffer, a line feed and the line would exceed the bound, then append the line, with a
      line feed when the buffer is not empty. */
  function Feed(q: Packing, l: string, at: nat): (p: Packing)
    requires |q.starts| == |q.sent| + 1
    ensures |p.starts| == |p.sent| + 1
  {
    if Utf16Length(q.buf + "\n" + l) > MAX then Packing(q.sent + [q.buf], l, q.starts + [at])
    else Packing(q.sent, q.buf + (if q.buf != [] then "\n" else "") + l, q.starts)
  }

  /** The messages sent: those flushed by the loop, then the buffer when it is not empty. */
  function Chunks(header: string, lines: seq<string>): seq<string> {
    var p := Pack(header, lines);
    if p.buf != [] then p.sent + [p.buf] else p.sent
  }

  /** Where each message starts among the items, followed by the number of items. */
  function Bounds(header: string, lines: seq<string>): seq<nat> {
    Pack(header, lines).starts + [|lines| + 1]
  }

  /** The summary loop, sending each flushed buffer and then the last one. */
  method Summarize(header: string, lines: seq<string>) returns (messages: seq<string>)
    ensures messages == Chunks(header, lines)
  {
    messages := [];
    var buf := header;
    for i := 0 to |lines|
      invariant Pack(header, lines[..i]).sent == messages
      invariant Pack(header, lines[..i]).buf == buf
    {
      assert lines[..i + 1][..i] == lines[..i];
      var l := lines[i];
      if Utf16Length(buf + "\n" + l) > MAX {
        messages := messages + [buf];
        buf := "";
      }
      buf := buf + (if buf != [] then "\n" else "") + l;
    }
    assert lines[..|lines|] == lines;
    if buf != [] {
      messages := messages + [buf];
    }
  }

  predicate NoEmptyLine(lines: seq<string>) {
    forall i :: 0 <= i < |lines| ==> lines[i] != []
  }

  /** Each sent message and the buffer are the items from their start up to the next start,
      joined; the starts begin at the header and increase. */
  ghost predicate Shaped(items: seq<string>, p: Packing) {
    && |p.starts| == |p.sent| + 1 && p.starts[0] == 0
    && (forall k :: 0 <= k < |p.sent| ==> p.starts[k] < p.starts[k + 1])
    && (forall k :: 0 <= k < |p.starts| ==> p.starts[k] < |items|)
    && (forall k :: 0 <= k < |p.sent| ==> p.sent[k] == JoinLines(items[p.starts[k]..p.starts[k + 1]]))
    && p.buf == JoinLines(items[p.starts[|p.sent|]..])
    && p.buf != []
  }

  lemma FeedShaped(items: seq<string>, q: Packing, l: string)
    requires Shaped(items, q) && l != []
    ensures Shaped(items + [l], Feed(q, l, |items|))
  {
    var items' := items + [l];
    var p := Feed(q, l, |items|);
    var s := q.starts[|q.sent|];
    assert forall a, b :: 0 <= a <= b <= |items| ==> items'[a..b] == items[a..b];
    assert items'[s..] == items[s..] + [l];
    assert items'[|items|..] == [l];
    if Utf16Length(q.buf + "\n" + l) > MAX {
      assert p.sent[|q.sent|] == JoinLines(items'[s..|items|]);
    } else {
      JoinLinesSnoc(items[s..], l);
    }
  }

  lemma {:induction false} PackShaped(header: string, lines: seq<string>)
    requires header != [] && NoEmptyLine(lines)
    ensures Shaped([header] + lines, Pack(header, lines))
    decreases |lines|
  {
    if lines == [] {
      assert ([header] + lines)[0..] == [header];
    } else {
      var n := |lines| - 1;
      var init := lines[..n];
      assert NoEmptyLine(init) by { assert forall i :: 0 <= i < n ==> init[i] == lines[i]; }
      PackShaped(header, init);
      assert [header] + lines == ([header] + init) + [lines[n]];
      FeedShaped([header] + init, Pack(header, init), lines[n]);
    }
  }

  /** Lines are never split: the messages are the header and the lines cut at increasing
      bounds into consecutive groups, the first starting at the header and the last ending
      with the last line, each group joined by line feeds. */
  lemma ChunksKeepLines(header: string, lines: seq<string>)
    requires header != [] && NoEmptyLine(lines)
    ensures var cs := Chunks(header, lines);
            var b := Bounds(header, lines);
            && |b| == |cs| + 1 && b[0] == 0 && b[|cs|] == |lines| + 1
            && (forall k :: 0 <= k < |cs| ==> b[k] < b[k + 1])
            && (forall k :: 0 <= k < |b| ==> b[k] <= |lines| + 1)
            && (forall k :: 0 <= k < |cs| ==> cs[k] == JoinLines(([header] + lines)[b[k]..b[k + 1]]))
  {
    PackShaped(header, lines);
    var p := Pack(header, lines);
    var items := [header] + lines;
    assert items[p.starts[|p.sent|]..] == items[p.starts[|p.sent|]..|lines| + 1];
  }

  /** The header begins the first message. */
  lemma ChunksStartWithHeader(header: string, lines: seq<string>)
    requires header != [] && NoEmptyLine(lines)
    ensures |Chunks(header, lines)| > 0 && header <= Chunks(header, lines)[0]
  {
    ChunksKeepLines(header, lines);
    var b := Bounds(header, lines);
    var items := [header] + lines;
    assert items[b[0]..b[1]][0] == header;
    
  }

  /** Joining the messages with line feeds gives back the header followed by the lines. */
  lemma {:induction false} ChunksRejoin(header: string, lines: seq<string>)
    requires header != [] && NoEmptyLine(lines)
    ensures JoinLines(Chunks(header, lines)) == JoinLines([header] + lines)
  {
    PackRejoins(header, lines);
  }

  lemma FeedRejoins(q: Packing, l: string, at: nat)
    requires |q.starts| == |q.sent| + 1 && q.buf != [] && l != []
    ensures Feed(q, l, at).buf != []
    ensures JoinLines(Feed(q, l, at).sent + [Feed(q, l, at).buf]) == JoinLines(q.sent + [q.buf]) + "\n" + l
  {
    JoinLinesSnoc(q.sent + [q.buf], l);
    if Utf16Length(q.buf + "\n" + l) <= MAX && q.sent != [] {
      JoinLinesSnoc(q.sent, q.buf);
      JoinLinesSnoc(q.sent, q.buf + "\n" + l);
    }
  }

  lemma {:induction false} PackRejoins(header: string, lines: seq<string>)
    requires header != [] && NoEmptyLine(lines)
    ensures Pack(header, lines).buf != []
    ensures JoinLines(Pack(header, lines).sent + [Pack(header, lines).buf]) == JoinLines([header] + lines)
    decreases |lines|
  {
    if lines != [] {
      var n := |lines| - 1;
      var init := lines[..n];
      assert NoEmptyLine(init) by { assert forall i :: 0 <= i < n ==> init[i] == lines[i]; }
      PackRejoins(header, init);
      FeedRejoins(Pack(header, init), lines[n], |lines|);
      assert [header] + lines == ([header] + init) + [lines[n]];
      JoinLinesSnoc([header] + init, lines[n]);
    }
  }

  /** Every message fits the bound when the header and each line do. */
  lemma {:induction false} ChunksBounded(header: string, lines: seq<string>)
    requires Utf16Length(header) <= MAX
    requires forall i :: 0 <= i < |lines| ==> Utf16Length(lines[i]) <= MAX
    ensures forall k :: 0 <= k < |Chunks(header, lines)| ==> Utf16Length(Chunks(header, lines)[k]) <= MAX
  {
    PackBounded(header, lines);
  }

  lemma {:induction false} PackBounded(header: string, lines: seq<string>)
    requires Utf16Length(header) <= MAX
    requires forall i :: 0 <= i < |lines| ==> Utf16Length(lines[i]) <= MAX
    ensures Utf16Length(Pack(header, lines).buf) <= MAX
    ensures forall k :: 0 <= k < |Pack(header, lines).sent| ==> Utf16Length(Pack(header, lines).sent[k]) <= MAX
    decreases |lines|
  {
    if lines != [] {
      var n := |lines| - 1;
      var l := lines[n];
      PackBounded(header, lines[..n]);
      var q := Pack(header, lines[..n]);
      if Utf16Length(q.buf + "\n" + l) <= MAX && q.buf == [] {
        assert q.buf + (if q.buf != [] then "\n" else "") + l == l;
      }
    }
  }
}
