/** Padded and prioritised payloads (sections 6.1, 6.2 and 6.6 of RFC 9113) through the HTTP/2 decoder. */
module H2Padding {
  import opened Octets
  import opened H2Frame
  import opened H2Decoder

  /** A payload with its padding length in front and its padding behind, as the PADDED flag announces it. */
  function Padded(content: seq<byte>, padding: seq<byte>): seq<byte>
    requires |padding| < 256
  {
    [|padding|] + (content + padding)
  }

  lemma PaddedParts(content: seq<byte>, padding: seq<byte>, skip: nat)
    requires |padding| < 256 && skip <= |content|
    ensures var p := Padded(content, padding);
            p[0] == |padding| && p[1 + skip..|p| - |padding|] == content[skip..]
  {
    var p := Padded(content, padding);
    assert forall i :: 0 <= i < |content| ==> p[1 + i] == content[i];
  }

  /** Padding is taken off DATA, whatever it consists of. */
  lemma PaddedDataDecodes<P>(h: FrameHeader, data: seq<byte>, padding: seq<byte>)
    requires h.streamId != 0 && IsPadded(h.flags) && |padding| < 256
    requires h.payloadLength == |Padded(data, padding)|
    ensures DecodeData<P>(h, Padded(data, padding)) == Ok(CompleteFrame(h, Data(data)))
  {
    PaddedParts(data, padding, 0);
    assert data[0..] == data;
  }

  /** A padded DATA frame is refused if and only if its padding would be longer than what follows the padding length. */
  lemma PaddedDataRefusedIff<P>(h: FrameHeader, p: seq<byte>)
    requires h.streamId != 0 && IsPadded(h.flags) && h.payloadLength == |p| && p != []
    ensures DecodeData<P>(h, p).Err? <==> p[0] > |p| - 1
    ensures DecodeData<P>(h, p).Ok? ==>
              exists data: seq<byte>, padding: seq<byte> | |padding| < 256 ::
                p == Padded(data, padding) && DecodeData<P>(h, p) == Ok(CompleteFrame(h, Data(data)))
  {
    if p[0] <= |p| - 1 {
      var n := |p| - p[0];
      var data, padding := p[1..n], p[n..];
      assert p == Padded(data, padding);
      PaddedDataDecodes<P>(h, data, padding);
    }
  }

  /** The fields in front of a fragment: `fields` stands for the priority fields or the promised identifier. */
  lemma PaddedFragmentFound(h: FrameHeader, fields: seq<byte>, fragment: seq<byte>, padding: seq<byte>)
    requires IsPadded(h.flags) && |padding| < 256 && h.payloadLength == |Padded(fields + fragment, padding)|
    ensures var p := Padded(fields + fragment, padding);
            var r := FragmentBounds(h, |fields|, p);
            r.Ok? && p[r.value.0..r.value.1] == fragment
  {
    PaddedParts(fields + fragment, padding, |fields|);
    assert (fields + fragment)[|fields|..] == fragment;
  }

  lemma PlainFragmentFound(h: FrameHeader, fields: seq<byte>, fragment: seq<byte>)
    requires !IsPadded(h.flags) && h.payloadLength == |fields + fragment|
    ensures var p := fields + fragment;
            var r := FragmentBounds(h, |fields|, p);
            r.Ok? && p[r.value.0..r.value.1] == fragment
  {
  }

  /** HEADERS with padding, priority fields, both or neither feeds HPACK exactly the fragment. */
  lemma HeadersFragmentFed<H, P>(
    hp: Hpack<H, P>, h: FrameHeader, c: Continuations, hpack: H,
    priority: seq<byte>, fragment: seq<byte>, padding: seq<byte>)
    requires h.streamId != 0 && |padding| < 256
    requires |priority| == if IsHeadersPriority(h.flags) then 5 else 0
    requires h.payloadLength == |Layout(h, priority, fragment, padding)|
    ensures var r := DecodeHeaders(hp, h, c, hpack, Layout(h, priority, fragment, padding));
            && (hp.decode(hpack, fragment).Err? ==> r == hp.decode(hpack, fragment).PropagateFailure())
            && (hp.decode(hpack, fragment).Ok? && !IsEndHeaders(h.flags) ==>
                  r.Ok? && r.value.kind.Partial? && r.value.hpack == hp.decode(hpack, fragment).value)
            && (hp.decode(hpack, fragment).Ok? && IsEndHeaders(h.flags) ==>
                  (r.Ok? <==> hp.finish(hp.decode(hpack, fragment).value).Ok?))
  {
    if IsPadded(h.flags) {
      PaddedFragmentFound(h, priority, fragment, padding);
    } else {
      PlainFragmentFound(h, priority, fragment);
    }
  }

  /** The payload of HEADERS as its flags announce it. */
  function Layout(h: FrameHeader, priority: seq<byte>, fragment: seq<byte>, padding: seq<byte>): seq<byte>
    requires |padding| < 256
  {
    if IsPadded(h.flags) then Padded(priority + fragment, padding) else priority + fragment
  }

  /** The promised stream is found behind the padding length. */
  lemma PromisedIdFound(h: FrameHeader, id: nat, fragment: seq<byte>, padding: seq<byte>)
    requires id < 0x8000_0000 && |padding| < 256
    ensures PromisedId(h, Layout(h, Be(id, 4), fragment, padding)) == id
  {
    Be32RoundTrip(id);
    var p := Layout(h, Be(id, 4), fragment, padding);
    if IsPadded(h.flags) {
      assert p[1..5] == Be(id, 4);
    } else {
      assert p[..4] == Be(id, 4);
    }
  }
}
