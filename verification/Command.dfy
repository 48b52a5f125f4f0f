/** `src/harness/command.rs`: the bounded capture of a child's output stream. */
module Command {
  import opened Text

  // ---- what a capture of a whole stream should hold ---------------------------------------------

  /** All chunks, end to end. */
  ghost function Stream(chunks: seq<string>): string {
    if chunks == [] then [] else Stream(chunks[..|chunks| - 1]) + chunks[|chunks| - 1]
  }

  ghost function Head(chunks: seq<string>, headLimit: nat): string {
    var s := Stream(chunks);
    if |s| <= headLimit then s else s[..headLimit]
  }

  /** What each chunk has left once the head is full. A chunk that fits the head entirely leaves
      nothing, not even an empty piece. */
  ghost function PastHead(chunks: seq<string>, headLimit: nat): seq<string> {
    if chunks == [] then []
    else
      var earlier, last := chunks[..|chunks| - 1], chunks[|chunks| - 1];
      var used := |Head(earlier, headLimit)|;
      if used < headLimit && |last| <= headLimit - used then PastHead(earlier, headLimit)
      else PastHead(earlier, headLimit) + [last[headLimit - used..]]
  }

  /** The longest suffix, in whole pieces, that fits `limit`; the last piece is always kept. */
  function Newest(pieces: seq<string>, limit: nat): seq<string> {
    if |pieces| <= 1 || Size(pieces) <= limit then pieces else Newest(pieces[1..], limit)
  }

  function Size(pieces: seq<string>): nat {
    if pieces == [] then 0 else |pieces[0]| + Size(pieces[1..])
  }

  function Join(pieces: seq<string>): string {
    if pieces == [] then [] else pieces[0] + Join(pieces[1..])
  }

  lemma {:induction false} JoinAppend(pieces: seq<string>, last: string)
    ensures Join(pieces + [last]) == Join(pieces) + last
    ensures Size(pieces + [last]) == Size(pieces) + |last|
  {
    if pieces == [] {
      assert Join([last]) == last + Join([]);
    } else {
      JoinAppend(pieces[1..], last);
      assert (pieces + [last])[1..] == pieces[1..] + [last];
    }
  }

  lemma {:induction false} JoinLength(pieces: seq<string>)
    ensures |Join(pieces)| == Size(pieces)
  {
    if pieces != [] { JoinLength(pieces[1..]); }
  }

  /** The head and the pieces past it are the stream, and nothing is past a head with room. */
  lemma {:induction false} PastHeadIsTheRest(chunks: seq<string>, headLimit: nat)
    ensures Head(chunks, headLimit) + Join(PastHead(chunks, headLimit)) == Stream(chunks)
    ensures |Head(chunks, headLimit)| < headLimit ==> PastHead(chunks, headLimit) == []
  {
    if chunks != [] {
      var earlier, last := chunks[..|chunks| - 1], chunks[|chunks| - 1];
      PastHeadIsTheRest(earlier, headLimit);
      var used := |Head(earlier, headLimit)|;
      if !(used < headLimit && |last| <= headLimit - used) {
        JoinAppend(PastHead(earlier, headLimit), last[headLimit - used..]);
        assert last == last[..headLimit - used] + last[headLimit - used..];
      }
    }
  }

  /** What one more chunk does to head and rest. */
  lemma ChunkArrives(before: seq<string>, chunk: string, headLimit: nat)
    ensures var head, room := Head(before, headLimit), headLimit - |Head(before, headLimit)|;
            if |head| < headLimit && |chunk| <= room then
              && Head(before + [chunk], headLimit) == head + chunk
              && PastHead(before + [chunk], headLimit) == PastHead(before, headLimit)
            else
              && room <= |chunk|
              && Head(before + [chunk], headLimit) == head + chunk[..room]
              && PastHead(before + [chunk], headLimit) == PastHead(before, headLimit) + [chunk[room..]]
  {
    PastHeadIsTheRest(before, headLimit);
    assert (before + [chunk])[..|before|] == before;
  }

  /** `Newest` is a suffix; it fits or is one piece; and no longer suffix would have fitted. */
  lemma {:induction false} NewestIsLongest(pieces: seq<string>, limit: nat) returns (from: nat)
    ensures from <= |pieces| && Newest(pieces, limit) == pieces[from..]
    ensures pieces != [] ==> from < |pieces|
    ensures Size(pieces[from..]) <= limit || from + 1 == |pieces|
    ensures forall j :: 0 <= j < from ==> Size(pieces[j..]) > limit
  {
    if |pieces| <= 1 || Size(pieces) <= limit {
      from := 0;
      assert pieces[0..] == pieces;
    } else {
      var rest := NewestIsLongest(pieces[1..], limit);
      from := rest + 1;
      assert pieces[1..][rest..] == pieces[from..];
      forall j | 0 <= j < from ensures Size(pieces[j..]) > limit {
        if j > 0 { assert pieces[1..][j - 1..] == pieces[j..]; } else { assert pieces[0..] == pieces; }
      }
    }
  }

  /** Evicting as pieces arrive loses nothing that evicting once at the end would have kept. */
  lemma {:induction false} NewestOnline(pieces: seq<string>, last: string, limit: nat)
    ensures Newest(Newest(pieces, limit) + [last], limit) == Newest(pieces + [last], limit)
  {
    if |pieces| > 1 && Size(pieces) > limit {
      NewestOnline(pieces[1..], last, limit);
      JoinAppend(pieces, last);
      assert (pieces + [last])[1..] == pieces[1..] + [last];
    }
  }

  lemma {:induction false} NewestSplits(pieces: seq<string>, limit: nat) returns (gone: string)
    ensures Join(pieces) == gone + Join(Newest(pieces, limit))
    ensures |gone| == Size(pieces) - Size(Newest(pieces, limit))
  {
    if |pieces| <= 1 || Size(pieces) <= limit {
      gone := "";
    } else {
      var later := NewestSplits(pieces[1..], limit);
      gone := pieces[0] + later;
    }
  }

  /** Head, the dropped middle and the tail are the whole stream, for every way it was chunked. */
  lemma CaptureSplitsStream(chunks: seq<string>, headLimit: nat, tailLimit: nat)
    returns (gone: string)
    ensures var past := PastHead(chunks, headLimit);
            Stream(chunks) == Head(chunks, headLimit) + gone + Join(Newest(past, tailLimit))
            && |gone| == Size(past) - Size(Newest(past, tailLimit))
  {
    PastHeadIsTheRest(chunks, headLimit);
    gone := NewestSplits(PastHead(chunks, headLimit), tailLimit);
  }

  /** Memory: never more than the two budgets, or the head budget and one piece. */
  lemma CaptureIsBounded(chunks: seq<string>, headLimit: nat, tailLimit: nat)
    ensures |Head(chunks, headLimit)| <= headLimit
    ensures var tail := Newest(PastHead(chunks, headLimit), tailLimit);
            Size(tail) <= tailLimit || |tail| == 1
  {
    var past := PastHead(chunks, headLimit);
    var from := NewestIsLongest(past, tailLimit);
  }

  // ---- the capture as the harness keeps it ------------------------------------------------------

  class BoundedOutput {
    var head: string
    const headLimit: nat
    var tail: seq<string>
    var tailBytes: nat
    const tailLimit: nat
    var dropped: nat
    ghost var pushed: seq<string>

    ghost predicate Valid()
      reads this
    {
      && head == Head(pushed, headLimit)
      && tail == Newest(PastHead(pushed, headLimit), tailLimit)
      && tailBytes == Size(tail)
      && dropped + tailBytes == Size(PastHead(pushed, headLimit))
    }

    constructor (headLimit: nat, tailLimit: nat)
      ensures Valid() && pushed == []
      ensures this.headLimit == headLimit && this.tailLimit == tailLimit
    {
      this.headLimit, this.tailLimit := headLimit, tailLimit;
      head, tail, tailBytes, dropped, pushed := "", [], 0, 0, [];
    }

    method Push(chunk: string)
      requires Valid()
      modifies this
      ensures Valid() && pushed == old(pushed) + [chunk]
    {
      ChunkArrives(pushed, chunk, headLimit);
      ghost var past := PastHead(pushed, headLimit);
      pushed := pushed + [chunk];
      var rest := chunk;
      if |head| < headLimit {
        var room := headLimit - |head|;
        if |rest| <= room {
          head := head + rest;
          return;
        }
        head := head + rest[..room];
        rest := rest[room..];
      }
      assert rest == chunk[|chunk| - |rest|..];
      assert PastHead(pushed, headLimit) == past + [rest];
      NewestOnline(past, rest, tailLimit);
      JoinAppend(past, rest);
      JoinAppend(tail, rest);
      tail := tail + [rest];
      tailBytes := tailBytes + |rest|;
      while |tail| > 1 && tailBytes > tailLimit
        invariant Newest(tail, tailLimit) == Newest(past + [rest], tailLimit)
        invariant tailBytes == Size(tail)
        invariant dropped + tailBytes == Size(past + [rest])
        decreases |tail|
        modifies this`tail, this`tailBytes, this`dropped
      {
        var gone := tail[0];
        tail := tail[1..];
        tailBytes := tailBytes - |gone|;
        dropped := dropped + |gone|;
      }
    }

    /** With nothing dropped the capture is the stream; otherwise the marker names exactly the
        number of bytes of the stream that stood between head and tail. */
    method Render() returns (text: string, ghost gone: string)
      requires Valid()
      ensures Stream(pushed) == head + gone + Join(tail) && |gone| == dropped
      ensures dropped == 0 ==> text == Stream(pushed)
      ensures dropped > 0 ==> text == head + "\n...[hanvil] omitted " + Decimal(dropped)
                                      + " bytes of output...\n" + Join(tail)
    {
      gone := CaptureSplitsStream(pushed, headLimit, tailLimit);
      var kept := Join(tail);
      if dropped == 0 {
        text := head + kept;
        assert gone == "" && head + gone + kept == text;
      } else {
        text := head + "\n...[hanvil] omitted " + Decimal(dropped)
                + " bytes of output...\n" + kept;
      }
    }
  }
}
