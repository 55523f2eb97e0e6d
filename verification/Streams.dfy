/** Cutting a byte stream into frames. A decoder answers with the length of the frame at the front, 0 for
    "wait for more" or a negative number for "stop". The loop that accumulates received bytes, asks the decoder
    and skips what it accepts is not part of the repository; `Drain` and `Feed` state what is assumed of it. */
module Streams {
  import opened Bytes
  import opened Sequences

  type Decoder = seq<byte> -> int

  /** What the results below need of a decoder: it waits when nothing has arrived, accepts only bytes that
      have arrived, does not change an answer other than "wait" when more bytes arrive, and accepts an accepted
      frame on its own. */
  ghost predicate Lawful(p: Decoder) {
    && p([]) == 0
    && (forall s :: Modest(p, s))
    && (forall s, t :: Stable(p, s, t))
  }

  ghost predicate Modest(p: Decoder, s: seq<byte>) {
    && p(s) <= |s|
    && (p(s) > 0 ==> p(s[..p(s)]) == p(s))
  }

  ghost predicate Stable(p: Decoder, s: seq<byte>, t: seq<byte>) {
    p(s) != 0 ==> p(s + t) == p(s)
  }

  /** The frames cut so far, the bytes not yet consumed, and whether the decoder said stop. */
  datatype Outcome = Outcome(frames: seq<seq<byte>>, rest: seq<byte>, stopped: bool)

  ghost function Drain(p: Decoder, s: seq<byte>): Outcome
    decreases |s|
  {
    var n := p(s);
    if 0 < n <= |s| then
      var d := Drain(p, s[n..]);
      Outcome([s[..n]] + d.frames, d.rest, d.stopped)
    else
      Outcome([], s, n < 0)
  }

  ghost function Feed(p: Decoder, o: Outcome, chunk: seq<byte>): Outcome {
    if o.stopped then o else
      var d := Drain(p, o.rest + chunk);
      Outcome(o.frames + d.frames, d.rest, d.stopped)
  }

  ghost function FeedAll(p: Decoder, chunks: seq<seq<byte>>): Outcome {
    if chunks == [] then Outcome([], [], false)
    else Feed(p, FeedAll(p, chunks[..|chunks| - 1]), chunks[|chunks| - 1])
  }

  function Flatten(ss: seq<seq<byte>>): seq<byte> {
    if ss == [] then [] else ss[0] + Flatten(ss[1..])
  }

  lemma {:induction false} FlattenAppend(ss: seq<seq<byte>>, tt: seq<seq<byte>>)
    ensures Flatten(ss + tt) == Flatten(ss) + Flatten(tt)
  {
    if ss == [] {
      assert ss + tt == tt;
    } else {
      FlattenAppend(ss[1..], tt);
      assert (ss + tt)[0] == ss[0] && (ss + tt)[1..] == ss[1..] + tt;
      Regroup(ss[0], Flatten(ss[1..]), Flatten(tt));
    }
  }

  /** Each of `frames` is one the decoder accepts whole. */
  ghost predicate Accepted(p: Decoder, frames: seq<seq<byte>>) {
    frames == [] || (p(frames[0]) == |frames[0]| > 0 && Accepted(p, frames[1..]))
  }

  lemma DrainStep(p: Decoder, s: seq<byte>)
    requires p(s) > 0 && Modest(p, s)
    ensures var n, d, e := p(s), Drain(p, s), Drain(p, s[p(s)..]);
            && d.frames == [s[..n]] + e.frames && d.frames[0] == s[..n] && d.frames[1..] == e.frames
            && d.rest == e.rest && d.stopped == e.stopped
  {
  }

  /** Draining loses nothing: the frames and the rest spell the input, every frame is one the decoder accepts
      whole, and the rest holds no frame at its front. */
  lemma {:induction false} DrainSound(p: Decoder, s: seq<byte>)
    requires Lawful(p)
    ensures var d := Drain(p, s);
            && Flatten(d.frames) + d.rest == s
            && Accepted(p, d.frames)
            && p(d.rest) <= 0 && (d.stopped <==> p(d.rest) < 0)
    decreases |s|
  {
    var n, d := p(s), Drain(p, s);
    assert Modest(p, s);
    if n > 0 {
      DrainStep(p, s);
      DrainSound(p, s[n..]);
      assert Flatten(d.frames) + d.rest == s[..n] + (Flatten(d.frames[1..]) + d.rest);
    }
  }

  /** ... and it is the only way to cut the input like that. */
  lemma {:induction false} DrainUnique(p: Decoder, frames: seq<seq<byte>>, rest: seq<byte>)
    requires Lawful(p) && Accepted(p, frames) && p(rest) <= 0
    ensures Drain(p, Flatten(frames) + rest) == Outcome(frames, rest, p(rest) < 0)
  {
    if frames == [] {
      assert Flatten(frames) + rest == rest;
    } else {
      var f, tail := frames[0], Flatten(frames[1..]) + rest;
      assert Flatten(frames) + rest == f + tail;
      assert Stable(p, f, tail) && Modest(p, f + tail);
      DrainStep(p, f + tail);
      assert (f + tail)[..|f|] == f && (f + tail)[|f|..] == tail;
      DrainUnique(p, frames[1..], rest);
    }
  }

  lemma CutAppend(s: seq<byte>, t: seq<byte>, n: nat)
    requires n <= |s|
    ensures (s + t)[n..] == s[n..] + t && (s + t)[..n] == s[..n]
  {
  }

  lemma {:induction false} DrainExtend(p: Decoder, s: seq<byte>, t: seq<byte>)
    requires Lawful(p)
    ensures var d := Drain(p, s);
            && (d.stopped ==> Drain(p, s + t) == Outcome(d.frames, d.rest + t, true))
            && (!d.stopped ==>
                  var e := Drain(p, d.rest + t);
                  Drain(p, s + t) == Outcome(d.frames + e.frames, e.rest, e.stopped))
    decreases |s|
  {
    var n, d := p(s), Drain(p, s);
    assert Modest(p, s) && Stable(p, s, t);
    if n > 0 {
      DrainStep(p, s);
      CutAppend(s, t, n);
      assert Modest(p, s + t);
      DrainStep(p, s + t);
      DrainExtend(p, s[n..], t);
      Regroup([s[..n]], d.frames[1..], Drain(p, d.rest + t).frames);
    } else if n == 0 {
      var e := Drain(p, s + t);
      assert [] + e.frames == e.frames;
    }
  }

  /** However the stream is split into chunks, the decoder yields the frames of the whole stream and stops, if it
      stops, after the same frame. */
  lemma {:induction false} ChunkingIndependence(p: Decoder, chunks: seq<seq<byte>>)
    requires Lawful(p)
    ensures var o, d := FeedAll(p, chunks), Drain(p, Flatten(chunks));
            && o.frames == d.frames && o.stopped == d.stopped
            && o.rest <= d.rest && (!o.stopped ==> o.rest == d.rest)
  {
    if chunks == [] {
      assert Drain(p, []) == Outcome([], [], false);
    } else {
      var init, last := chunks[..|chunks| - 1], chunks[|chunks| - 1];
      ChunkingIndependence(p, init);
      FlattenAppend(init, [last]);
      assert Flatten([last]) == last;
      assert init + [last] == chunks;
      DrainExtend(p, Flatten(init), last);
    }
  }
}
