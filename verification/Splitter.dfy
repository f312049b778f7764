/** Cutting the metadata stream into packets: input arrives in chunks, and everything up to each
    terminator is one packet, wherever the chunks are cut. */
module Splitter {

  const TERMINATOR: string := "</tt:MetadataStream>"

  /** `t` stands in `s` at position `i`. */
  predicate At(s: string, t: string, i: nat) { i + |t| <= |s| && s[i..i + |t|] == t }

  /** The leftmost position of `t`, or -1. */
  function Find(s: string, t: string): (r: int)
    ensures -1 <= r
    ensures r >= 0 ==> At(s, t, r)
  {
    FindFrom(s, t, 0)
  }

  function FindFrom(s: string, t: string, i: nat): (r: int)
    ensures r == -1 || (i <= r && At(s, t, r))
    ensures r == -1 ==> forall j :: i <= j ==> !At(s, t, j)
    ensures r >= 0 ==> forall j :: i <= j < r ==> !At(s, t, j)
    decreases |s| - i
  {
    if At(s, t, i) then i else if i >= |s| then -1 else FindFrom(s, t, i + 1)
  }

  /** The leftmost position is determined by standing there and nowhere before. */
  lemma {:induction false} FindIs(s: string, t: string, i: nat)
    requires At(s, t, i) && forall j :: 0 <= j < i ==> !At(s, t, j)
    ensures Find(s, t) == i
  {}

  lemma {:induction false} AtExtends(s: string, t: string, more: string, i: nat)
    ensures At(s, t, i) ==> At(s + more, t, i)
    ensures At(s + more, t, i) && i + |t| <= |s| ==> At(s, t, i)
  {
    if i + |t| <= |s| { assert (s + more)[i..i + |t|] == s[i..i + |t|]; }
  }

  /** What comes after does not change the leftmost position. */
  lemma {:induction false} FindExtends(s: string, t: string, more: string)
    requires Find(s, t) >= 0
    ensures Find(s + more, t) == Find(s, t)
  {
    var i := Find(s, t);
    AtExtends(s, t, more, i);
    forall j | 0 <= j < i ensures !At(s + more, t, j) { AtExtends(s, t, more, j); }
    FindIs(s + more, t, i);
  }

  // ---------- The split of a whole input ----------

  datatype Cut = Cut(packets: seq<string>, rest: string)

  /** The packets before each terminator, from the left, and what follows the last one. */
  function Split(s: string, t: string): Cut
    requires t != ""
    decreases |s|
  {
    var i := Find(s, t);
    if i < 0 then Cut([], s)
    else
      var tail := Split(s[i + |t|..], t);
      Cut([s[..i]] + tail.packets, tail.rest)
  }

  function Join(packets: seq<string>, t: string, rest: string): string
  {
    if packets == [] then rest else packets[0] + t + Join(packets[1..], t, rest)
  }

  /** No packet hides a terminator: each ends at the first one that follows. */
  ghost predicate IsCut(packets: seq<string>, t: string, rest: string)
  {
    && (forall k :: 0 <= k < |packets| ==> Find(packets[k] + t, t) == |packets[k]|)
    && Find(rest, t) == -1
  }

  /** Splitting loses nothing and leaves no terminator. */
  lemma {:induction false} SplitIsCut(s: string, t: string)
    requires t != ""
    ensures Join(Split(s, t).packets, t, Split(s, t).rest) == s
    ensures IsCut(Split(s, t).packets, t, Split(s, t).rest)
    decreases |s|
  {
    hide Find, Split, IsCut;
    var i := Find(s, t);
    SplitStep(s, t);
    if i < 0 {
      NoPackets(s, t);
    } else {
      var p, tail := s[..i], s[i + |t|..];
      SplitIsCut(tail, t);
      FirstPacket(s, t);
      MorePackets(p, Split(tail, t).packets, t, Split(tail, t).rest);
      assert s == p + t + tail;
    }
  }

  lemma {:induction false} SplitStep(s: string, t: string)
    requires t != ""
    ensures var i := Find(s, t);
            && (i < 0 ==> Split(s, t) == Cut([], s))
            && (i >= 0 ==> Split(s, t) == Cut([s[..i]] + Split(s[i + |t|..], t).packets, Split(s[i + |t|..], t).rest))
  {
    hide Find;
  }

  lemma {:induction false} NoPackets(s: string, t: string)
    requires Find(s, t) < 0
    ensures IsCut([], t, s) && Join([], t, s) == s
  {}

  lemma {:induction false} MorePackets(p: string, ps: seq<string>, t: string, rest: string)
    requires Find(p + t, t) == |p| && IsCut(ps, t, rest)
    ensures IsCut([p] + ps, t, rest) && Join([p] + ps, t, rest) == p + t + Join(ps, t, rest)
  {
    hide Find;
    assert ([p] + ps)[1..] == ps;
  }

  lemma {:induction false} FirstPacket(s: string, t: string)
    requires Find(s, t) >= 0
    ensures Find(s[..Find(s, t)] + t, t) == Find(s, t)
  {
    var i := Find(s, t);
    var p := s[..i] + t;
    assert s == p + s[i + |t|..];
    assert p[i..i + |t|] == t;
    forall j | 0 <= j < i ensures !At(p, t, j) { AtExtends(p, t, s[i + |t|..], j); }
    FindIs(p, t, i);
  }

  /** There is only one way to cut an input. */
  lemma {:induction false} CutUnique(packets: seq<string>, t: string, rest: string)
    requires t != "" && IsCut(packets, t, rest)
    ensures Split(Join(packets, t, rest), t) == Cut(packets, rest)
    decreases |packets|
  {
    hide Find;
    if packets == [] {
    } else {
      var p, tail := packets[0], Join(packets[1..], t, rest);
      CutUnique(packets[1..], t, rest);
      FindExtends(p + t, t, tail);
      var s := p + t + tail;
      assert s[..|p|] == p && s[|p| + |t|..] == tail;
      assert packets == [p] + packets[1..];
    }
  }

  /** Splitting a prefix first, and then what it leaves together with the following input, is the same
      as splitting all at once, even when a terminator lies across the border. */
  lemma {:induction false} SplitInTwo(a: string, b: string, t: string)
    requires t != ""
    ensures var first := Split(a, t);
            var second := Split(first.rest + b, t);
            Split(a + b, t) == Cut(first.packets + second.packets, second.rest)
    decreases |a|
  {
    hide Find, Split;
    var i := Find(a, t);
    SplitStep(a, t);
    if i < 0 {
      assert [] + Split(a + b, t).packets == Split(a + b, t).packets;
    } else {
      FindExtends(a, t, b);
      SplitStep(a + b, t);
      var tail := a[i + |t|..];
      SplitInTwo(tail, b, t);
      assert (a + b)[i + |t|..] == tail + b && (a + b)[..i] == a[..i];
    }
  }

  // ---------- The parser ----------

  /** What `+=` takes from a zero-terminated buffer. */
  function CString(chunk: string): string
  {
    if chunk == "" || chunk[0] == '\0' then "" else [chunk[0]] + CString(chunk[1..])
  }

  /** Nothing is lost exactly when there is no zero byte. */
  lemma {:induction false} CStringWhole(chunk: string)
    ensures CString(chunk) == chunk <==> '\0' !in chunk
    ensures CString(chunk) <= chunk && '\0' !in CString(chunk)
  {
    if chunk != "" && chunk[0] != '\0' {
      CStringWhole(chunk[1..]);
      assert chunk == [chunk[0]] + chunk[1..];
    }
  }

  class PacketParser {
    var xmlBuffer: string
    ghost var chunks: seq<string>
    ghost var emitted: seq<string>

    /** The packets so far, and those still to be cut from the buffer, are the split of all input so far. */
    ghost predicate Valid()
      reads this
    {
      var c := Split(xmlBuffer, TERMINATOR);
      Split(Whole(chunks), TERMINATOR) == Cut(emitted + c.packets, c.rest)
    }

    /** No complete packet is left in the buffer. */
    ghost predicate Drained()
      reads this
    {
      Find(xmlBuffer, TERMINATOR) == -1
    }

    constructor ()
      ensures Valid() && Drained() && chunks == [] && emitted == []
    {
      NothingToFind();
      xmlBuffer, chunks, emitted := "", [], [];
    }

    /** Takes one chunk and cuts complete packets off the buffer while the parser is running. `running(k)`
        is what the test before packet `k` reads: another thread may stop the parser at any time. */
    method Feed(chunk: string, running: nat -> bool) returns (packets: seq<string>)
      requires Valid()
      modifies this
      ensures Valid() && chunks == old(chunks) + [chunk] && emitted == old(emitted) + packets
      ensures Drained() || !running(|packets|)
      ensures forall k :: 0 <= k < |packets| ==> running(k)
    {
      hide Find, CString, Split, StillToCut;
      NextInput(emitted, Whole(chunks), xmlBuffer, CString(chunk));
      WholeMore(chunks, chunk);
      chunks := chunks + [chunk];
      xmlBuffer := xmlBuffer + CString(chunk);
      ghost var cut := Split(xmlBuffer, TERMINATOR);
      packets := [];
      NothingCut(xmlBuffer);
      var endPos := if running(0) then Find(xmlBuffer, TERMINATOR) else -1;
      while endPos != -1
        invariant chunks == old(chunks) + [chunk] && emitted == old(emitted)
        invariant StillToCut(cut, packets, xmlBuffer)
        invariant endPos == if running(|packets|) then Find(xmlBuffer, TERMINATOR) else -1
        invariant forall k :: 0 <= k < |packets| ==> running(k)
        decreases |xmlBuffer|
      {
        OnePacket(cut, packets, xmlBuffer);
        var packet := xmlBuffer[..endPos];
        packets := packets + [packet];
        xmlBuffer := xmlBuffer[endPos + |TERMINATOR|..];
        endPos := if running(|packets|) then Find(xmlBuffer, TERMINATOR) else -1;
      }
      AllAccounted(cut, emitted, packets, xmlBuffer);
      emitted := emitted + packets;
    }
  }

  /** `packets` are cut, and `buffer` holds the others and the rest. */
  ghost predicate StillToCut(cut: Cut, packets: seq<string>, buffer: string)
  {
    cut == Cut(packets + Split(buffer, TERMINATOR).packets, Split(buffer, TERMINATOR).rest)
  }

  lemma {:induction false} NothingCut(buffer: string)
    ensures StillToCut(Split(buffer, TERMINATOR), [], buffer)
  {
    hide Split;
    assert [] + Split(buffer, TERMINATOR).packets == Split(buffer, TERMINATOR).packets;
  }

  lemma {:induction false} OnePacket(cut: Cut, packets: seq<string>, buffer: string)
    requires StillToCut(cut, packets, buffer) && Find(buffer, TERMINATOR) >= 0
    ensures var i := Find(buffer, TERMINATOR);
            StillToCut(cut, packets + [buffer[..i]], buffer[i + |TERMINATOR|..])
  {
    hide Find, Split;
    SplitStep(buffer, TERMINATOR);
  }

  lemma {:induction false} AllAccounted(cut: Cut, emitted: seq<string>, packets: seq<string>, buffer: string)
    requires StillToCut(cut, packets, buffer)
    ensures var c := Split(buffer, TERMINATOR);
            Cut(emitted + cut.packets, cut.rest) == Cut((emitted + packets) + c.packets, c.rest)
  {
    hide Split;
    assert emitted + (packets + Split(buffer, TERMINATOR).packets) == (emitted + packets) + Split(buffer, TERMINATOR).packets;
  }

  /** Input that arrives while packets are still to be cut. */
  lemma {:induction false} NextInput(emitted: seq<string>, whole: string, buffer: string, more: string)
    requires var c := Split(buffer, TERMINATOR); Split(whole, TERMINATOR) == Cut(emitted + c.packets, c.rest)
    ensures var d := Split(buffer + more, TERMINATOR);
            Split(whole + more, TERMINATOR) == Cut(emitted + d.packets, d.rest)
  {
    hide Split;
    SplitInTwo(whole, more, TERMINATOR);
    SplitInTwo(buffer, more, TERMINATOR);
    var c := Split(buffer, TERMINATOR);
    var rest := Split(c.rest + more, TERMINATOR);
    assert (emitted + c.packets) + rest.packets == emitted + (c.packets + rest.packets);
  }

  lemma {:induction false} WholeMore(chunks: seq<string>, chunk: string)
    ensures Whole(chunks + [chunk]) == Whole(chunks) + CString(chunk)
  {
    hide CString;
    assert (chunks + [chunk])[..|chunks|] == chunks;
  }

  // ---------- Any chunking ----------

  function Whole(chunks: seq<string>): string
  {
    if chunks == [] then "" else Whole(chunks[..|chunks| - 1]) + CString(chunks[|chunks| - 1])
  }

  /** Whenever the parser is stopped, the packets cut so far are the first ones of the whole input. */
  lemma {:induction false} EmittedIsPrefix(p: PacketParser)
    requires p.Valid()
    ensures p.emitted <= Split(Whole(p.chunks), TERMINATOR).packets
  {
    hide Split;
  }

  lemma {:induction false} DrainedIsSplit(p: PacketParser)
    requires p.Valid() && p.Drained()
    ensures Cut(p.emitted, p.xmlBuffer) == Split(Whole(p.chunks), TERMINATOR)
  {
    hide Split, Find;
    SplitStep(p.xmlBuffer, TERMINATOR);
    assert p.emitted + [] == p.emitted;
  }

  /** However the same input is cut into chunks, the packets and the leftover are the same. */
  lemma {:induction false} ChunkingIrrelevant(a: PacketParser, b: PacketParser)
    requires a.Valid() && b.Valid() && a.Drained() && b.Drained()
    requires Plain(a.chunks) && Plain(b.chunks) && Concat(a.chunks) == Concat(b.chunks)
    ensures a.emitted == b.emitted && a.xmlBuffer == b.xmlBuffer
  {
    hide Split, Find;
    DrainedIsSplit(a);
    DrainedIsSplit(b);
    WholeIsConcat(a.chunks);
    WholeIsConcat(b.chunks);
  }

  /** The packets and the leftover are those of the input as it arrived exactly if no chunk had a zero byte. */
  lemma {:induction false} WholeInputIff(p: PacketParser)
    requires p.Valid() && p.Drained()
    ensures Cut(p.emitted, p.xmlBuffer) == Split(Concat(p.chunks), TERMINATOR) <==> Plain(p.chunks)
  {
    hide Split, Find, Plain;
    DrainedIsSplit(p);
    SplitIsCut(Whole(p.chunks), TERMINATOR);
    SplitIsCut(Concat(p.chunks), TERMINATOR);
    WholeShorter(p.chunks);
    if Plain(p.chunks) { WholeIsConcat(p.chunks); }
  }

  /** One packet between the end of the stream's element and what follows. */
  lemma {:induction false} OnePacketCut()
    ensures Split("a</tt:MetadataStream>b", TERMINATOR) == Cut(["a"], "b")
  {
    var s := "a</tt:MetadataStream>b";
    assert s[1..21] == TERMINATOR && s[0..20][0] == 'a';
    FindIs(s, TERMINATOR, 1);
    assert Find("b", TERMINATOR) == -1;
    hide Find, Split;
    SplitStep(s, TERMINATOR);
    SplitStep("b", TERMINATOR);
    assert s[..1] == "a" && s[21..] == "b";
    assert ["a"] + [] == ["a"];
  }

  /** One chunk with a zero byte: what follows the byte is lost, and so the cut is another one. */
  lemma {:induction false} ZeroByteLoses()
    ensures Whole(["a\0b"]) == "a" && Concat(["a\0b"]) == "a\0b"
    ensures Split(Whole(["a\0b"]), TERMINATOR) != Split(Concat(["a\0b"]), TERMINATOR)
  {
    var chunks := ["a\0b"];
    assert chunks[..0] == [];
    assert CString("a\0b") == ['a'] + CString("\0b");
    hide Split, CString;
    SplitIsCut(Whole(chunks), TERMINATOR);
    SplitIsCut(Concat(chunks), TERMINATOR);
  }

  lemma {:induction false} WholeShorter(chunks: seq<string>)
    ensures |Whole(chunks)| <= |Concat(chunks)|
    ensures |Whole(chunks)| == |Concat(chunks)| <==> Plain(chunks)
  {
    hide CString;
    if chunks != [] {
      var n := |chunks| - 1;
      WholeShorter(chunks[..n]);
      CStringWhole(chunks[n]);
      assert Plain(chunks) <==> Plain(chunks[..n]) && '\0' !in chunks[n] by {
        assert Plain(chunks) ==> forall k :: 0 <= k < n ==> chunks[..n][k] == chunks[k];
        assert forall k :: 0 <= k < n ==> chunks[k] == chunks[..n][k];
      }
    }
  }

  function Concat(chunks: seq<string>): string
  {
    if chunks == [] then "" else Concat(chunks[..|chunks| - 1]) + chunks[|chunks| - 1]
  }

  predicate Plain(chunks: seq<string>) { forall k :: 0 <= k < |chunks| ==> '\0' !in chunks[k] }

  lemma {:induction false} WholeIsConcat(chunks: seq<string>)
    requires Plain(chunks)
    ensures Whole(chunks) == Concat(chunks)
  {
    hide CString;
    if chunks != [] {
      WholeIsConcat(chunks[..|chunks| - 1]);
      CStringWhole(chunks[|chunks| - 1]);
    }
  }

  lemma {:induction false} NothingToFind()
    ensures Find("", TERMINATOR) == -1
  {}
}
