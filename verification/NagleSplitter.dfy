/** The splitter that cuts the caller's bytes into segments (`nagles`, src/tcp_proto_output.h; RFC 896). */
module NagleSplitter {
  import opened SequenceWindows

  /** What one turn of the loop does: a full segment at once, or a small one once nothing is outstanding. */
  datatype Choice = FullSegment | WhenEmpty(len: nat)

  function Choose(mtu: nat, winSz: nat, left: nat): Choice {
    if winSz > mtu && left >= mtu then FullSegment else WhenEmpty(Min(mtu, Min(winSz, left)))
  }

  /** The bytes one turn takes. */
  function Take(mtu: nat, winSz: nat, left: nat): (n: nat)
    ensures n <= left
    ensures mtu > 0 && winSz > 0 && left > 0 ==> n > 0
  {
    match Choose(mtu, winSz, left)
    case FullSegment => mtu
    case WhenEmpty(len) => len
  }

  function Flatten(segments: seq<seq<Byte>>): seq<Byte> {
    if |segments| == 0 then [] else Flatten(segments[..|segments| - 1]) + segments[|segments| - 1]
  }

  lemma FlattenSnoc(segments: seq<seq<Byte>>, rest: seq<Byte>, n: nat)
    requires n <= |rest|
    ensures Flatten(segments + [rest[..n]]) + rest[n..] == Flatten(segments) + rest
  {
    assert (segments + [rest[..n]])[..|segments|] == segments;
    assert rest[..n] + rest[n..] == rest;
  }

  /**
    A turn takes the least of the data, the MTU and the window, and waits unless there are more than an MTU of
    room and an MTU of data.
   */
  lemma TakeBounds(mtu: nat, winSz: nat, left: nat)
    requires mtu > 0 && winSz > 0 && left > 0
    ensures var n := Take(mtu, winSz, left);
            n <= mtu && n <= winSz && n <= left && (n == mtu || n == winSz || n == left)
    ensures Choose(mtu, winSz, left).FullSegment? <==> mtu < winSz && mtu <= left
  {
  }

  /**
    The loop ends, and its segments are non-empty, spell the data and each respect the window
    `winSz[i]` read at the head of turn `i`; a turn takes at least a byte, so |data| readings suffice.
   */
  method Split(data: seq<Byte>, mtu: nat, winSz: seq<nat>) returns (segments: seq<seq<Byte>>)
    requires mtu > 0
    requires |data| <= |winSz| && forall i :: 0 <= i < |winSz| ==> winSz[i] > 0
    ensures |segments| <= |data|
    ensures Flatten(segments) == data
    ensures forall i :: 0 <= i < |segments| ==> 0 < |segments[i]| <= Min(mtu, winSz[i])
    ensures forall i :: 0 <= i < |segments| - 1 ==> |segments[i]| == Min(mtu, winSz[i])
  {
    segments := [];
    var rest := data;
    while |rest| > 0
      invariant |segments| + |rest| <= |data|
      invariant Flatten(segments) + rest == data
      invariant forall i :: 0 <= i < |segments| ==> 0 < |segments[i]| <= Min(mtu, winSz[i])
      invariant forall i :: 0 <= i < |segments| ==>
                  |segments[i]| == Min(mtu, winSz[i]) || (i == |segments| - 1 && rest == [])
      decreases |rest|
    {
      var n := Take(mtu, winSz[|segments|], |rest|);
      TakeBounds(mtu, winSz[|segments|], |rest|);
      FlattenSnoc(segments, rest, n);
      segments := segments + [rest[..n]];
      rest := rest[n..];
    }
  }
}
