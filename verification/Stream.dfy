/** Streaming an image from imvault: a validated prefix, then the rest of a bounded body. */
module Stream {
  import Imvault

  newtype byte = x: int | 0 <= x < 256

  const PREFIX_BYTES: nat := 512

  /** What a read reports beside its bytes: nothing, a clean end, or a failure. */
  datatype Status = More | EOF | Failed | Unavailable

  /** How a source chooses to answer one read: with how many bytes, whether it says at once that the body
      ends, and whether it fails. */
  datatype Choice = Choice(count: nat, prompt: bool, fails: bool)

  function Least(a: nat, b: nat, c: nat): nat {
    var ab := if a < b then a else b;
    if ab < c then ab else c
  }

  /** An upstream response body, which answers each read as it chooses; `stalls` bounds how often it
      returns nothing at all. */
  class Upstream {
    const body: seq<byte>
    const choices: nat -> Choice
    var asked: nat
    var at: nat
    var stalls: nat
    var closed: bool
    ghost var failed: bool       // whether it has reported a failure

    constructor (body: seq<byte>, stalls: nat, choices: nat -> Choice)
      ensures this.body == body && at == 0 && this.stalls == stalls && !closed && !failed
      ensures this.choices == choices && asked == 0
    {
      this.body, this.choices := body, choices;
      asked, at, this.stalls, closed, failed := 0, 0, stalls, false, false;
    }

    ghost function Rest(): seq<byte>
      requires at <= |body|
      reads this
    {
      body[at..]
    }

    /** What the next read gives. */
    ghost function Answer(max: nat): (seq<byte>, Status)
      requires at <= |body|
      reads this
    {
      var c := choices(asked);
      var n := Least(c.count, max, |body| - at);
      (body[at..at + n],
       if c.fails then Failed
       else if at + n == |body| && (c.prompt || (n == 0 && stalls == 0)) then EOF
       else if n == 0 && stalls == 0 then Failed
       else More)
    }

    method Read(max: nat) returns (data: seq<byte>, status: Status)
      requires at <= |body|
      modifies this`asked, this`at, this`stalls, this`failed
      ensures (data, status) == old(Answer(max)) && asked == old(asked) + 1
      ensures at <= |body| && old(Rest()) == data + Rest() && |data| <= max
      ensures status != Unavailable && (status == EOF ==> Rest() == [])
      ensures stalls <= old(stalls) && failed == (old(failed) || status == Failed)
      ensures status == More && max > 0 ==> |data| > 0 || stalls < old(stalls)
    {
      var c := choices(asked);
      var n := Least(c.count, max, |body| - at);
      asked := asked + 1;
      data := body[at..at + n];
      at := at + n;
      if c.fails {
        status := Failed;
      } else if at == |body| && (c.prompt || (n == 0 && stalls == 0)) {
        status := EOF;
      } else if n == 0 && stalls == 0 {
        status := Failed;
      } else {
        status := More;
        if n == 0 {
          stalls := stalls - 1;
        }
      }
      failed := failed || status == Failed;
    }

    method Close()
      modifies `closed
      ensures closed
    {
      closed := true;
    }
  }

  /** io.MultiReader over the bytes already read and the rest of the body. */
  class MultiReader {
    var prefix: seq<byte>
    var ended: bool
    const upstream: Upstream

    constructor (prefix: seq<byte>, upstream: Upstream)
      ensures this.prefix == prefix && this.upstream == upstream && !ended
    {
      this.prefix, this.upstream, ended := prefix, upstream, false;
    }

    ghost predicate Valid()
      reads this, upstream
    {
      upstream.at <= |upstream.body| && (ended ==> prefix == [] && upstream.Rest() == [])
    }

    ghost function Rest(): seq<byte>
      requires Valid()
      reads this, upstream
    {
      prefix + upstream.Rest()
    }

    ghost function Answer(max: nat): (seq<byte>, Status)
      requires Valid()
      reads this, upstream
    {
      if prefix != [] then (prefix[..Least(|prefix|, max, max)], More)
      else if ended then ([], EOF)
      else upstream.Answer(max)
    }

    method Read(max: nat) returns (data: seq<byte>, status: Status)
      requires Valid()
      modifies this, upstream`asked, upstream`at, upstream`stalls, upstream`failed
      ensures (data, status) == old(Answer(max)) && (status == EOF ==> ended)
      ensures prefix == (if old(prefix) == [] then [] else old(prefix)[|data|..])
      ensures Valid() && old(Rest()) == data + Rest() && |data| <= max
      ensures status != Unavailable && (status == EOF ==> Rest() == [])
      ensures upstream.stalls <= old(upstream.stalls) && upstream.failed == (old(upstream.failed) || status == Failed)
      ensures status == More && max > 0 ==> |data| > 0 || upstream.stalls < old(upstream.stalls)
    {
      if prefix != [] {
        var n := Least(|prefix|, max, max);
        data, status := prefix[..n], More;
        prefix := prefix[n..];
        return;
      }
      if ended {
        return [], EOF;
      }
      data, status := upstream.Read(max);
      if status == EOF {
        ended := true;
      }
    }
  }

  lemma MovedOn(a: seq<byte>, b: seq<byte>, rest: seq<byte>, data: seq<byte>, left: seq<byte>)
    requires rest == data + left
    ensures a + b + rest == a + (b + data) + left
    ensures b == [] ==> a + b + rest == (a + data) + b + left
  {
  }

  /** Delivers at most eight mebibytes of its source. */
  class BoundedImage {
    const source: MultiReader
    var left: nat
    ghost const whole: seq<byte>         // everything the source had to give
    ghost var delivered: seq<byte>       // what readers have been given
    ghost var dropped: seq<byte>         // what was read past the bound, and reported as an error

    constructor (source: MultiReader)
      requires source.Valid()
      ensures Valid() && this.source == source && whole == source.Rest()
      ensures delivered == dropped == [] && left == Imvault.MAX_IMAGE_BYTES
    {
      this.source, left := source, Imvault.MAX_IMAGE_BYTES;
      whole, delivered, dropped := source.Rest(), [], [];
    }

    ghost predicate Valid()
      reads this, source, source.upstream
    {
      && source.Valid()
      && whole == delivered + dropped + source.Rest()
      && |delivered| + left == Imvault.MAX_IMAGE_BYTES
      && (dropped != [] ==> left == 0)
    }

    ghost function Answer(max: nat): (seq<byte>, Status)
      requires Valid()
      reads this, source, source.upstream
    {
      if left > 0 then source.Answer(Least(max, left, left))
      else if source.Answer(1).0 != [] then ([], Unavailable)
      else ([], source.Answer(1).1)
    }

    /** However the reader and the upstream split the body: what is delivered is a prefix of the body within
        the bound; a byte past it is dropped and reported, each time; and an end is the end of the body
        exactly if nothing has been dropped, which is to say, if no read has reported an error. */
    method Read(max: nat) returns (data: seq<byte>, status: Status)
      requires Valid()
      modifies this, source, source.upstream`asked, source.upstream`at, source.upstream`stalls, source.upstream`failed
      ensures (data, status) == old(Answer(max)) && (status == EOF ==> source.ended)
      ensures Valid() && |data| <= max
      ensures delivered == old(delivered) + data
      ensures old(dropped) <= dropped && |dropped| == |old(dropped)| + if status == Unavailable then 1 else 0
      ensures status == EOF ==> (delivered == whole <==> dropped == [])
      ensures source.upstream.stalls <= old(source.upstream.stalls)
      ensures status == Failed ==> source.upstream.failed
      ensures status == More && max > 0 ==> |data| > 0 || source.upstream.stalls < old(source.upstream.stalls)
    {
      if left == 0 {
        status := ReadPast();
        return [], status;
      }
      ghost var rest := source.Rest();
      data, status := source.Read(Least(max, left, left));
      MovedOn(delivered, dropped, rest, data, source.Rest());
      left := left - |data|;
      delivered := delivered + data;
    }

    /** Past the bound one more byte is an error. */
    method ReadPast() returns (status: Status)
      requires Valid() && left == 0
      modifies `dropped, source, source.upstream`asked, source.upstream`at, source.upstream`stalls,
        source.upstream`failed
      ensures status == old(Answer(1)).1 && (status == EOF ==> source.ended)
      ensures Valid() && old(dropped) <= dropped
      ensures |dropped| == |old(dropped)| + if status == Unavailable then 1 else 0
      ensures source.upstream.stalls <= old(source.upstream.stalls)
      ensures status == Failed ==> source.upstream.failed
      ensures status == More ==> source.upstream.stalls < old(source.upstream.stalls)
    {
      ghost var rest := source.Rest();
      var extra;
      extra, status := source.Read(1);
      MovedOn(delivered, dropped, rest, extra, source.Rest());
      dropped := dropped + extra;
      if extra != [] {
        return Unavailable;
      }
    }
  }

  /** io.Copy out of the stream, with reads of any sizes, until the first status that is not `More`
      or until the reader gives up. Enough reads that ask for something always reach the outcome. */
  method Copy(image: BoundedImage, sizes: seq<nat>) returns (data: seq<byte>, status: Status)
    requires image.Valid() && image.delivered == [] && image.dropped == []
    modifies image, image.source, image.source.upstream`asked, image.source.upstream`at,
             image.source.upstream`stalls, image.source.upstream`failed
    ensures data <= image.whole && |data| <= Imvault.MAX_IMAGE_BYTES
    ensures status == EOF ==> data == image.whole
    ensures status == Failed ==> image.source.upstream.failed
    ensures |image.whole| > Imvault.MAX_IMAGE_BYTES ==> status != EOF
    ensures status == Unavailable ==> |image.whole| > Imvault.MAX_IMAGE_BYTES && |data| == Imvault.MAX_IMAGE_BYTES
    ensures (forall k :: 0 <= k < |sizes| ==> sizes[k] > 0) ==>
      (|sizes| > Imvault.MAX_IMAGE_BYTES + old(image.source.upstream.stalls) ==> status != More)
  {
    data, status := [], More;
    var i := 0;
    while i < |sizes| && status == More
      invariant 0 <= i <= |sizes|
      invariant image.Valid() && data == image.delivered
      invariant status == Unavailable <==> image.dropped != []
      invariant status == EOF ==> image.whole == data
      invariant status == Failed ==> image.source.upstream.failed
      invariant (forall k :: 0 <= k < |sizes| ==> sizes[k] > 0) ==>
        (status == More ==> i <= |data| + (old(image.source.upstream.stalls) - image.source.upstream.stalls))
    {
      var chunk;
      chunk, status := image.Read(sizes[i]);
      data := data + chunk;
      i := i + 1;
    }
    assert image.whole == data + (image.dropped + image.source.Rest());
  }

  /** Reading on after the error delivers nothing, and an end it comes to is not the end of the body: a
      caller that wants the truth of an end has to remember the error. */
  method ReadOnAfterOverrun(image: BoundedImage, max: nat) returns (data: seq<byte>, status: Status)
    requires image.Valid() && image.dropped != []
    modifies image, image.source, image.source.upstream`asked, image.source.upstream`at,
             image.source.upstream`stalls, image.source.upstream`failed
    ensures image.Valid() && image.dropped != []
    ensures data == [] && image.delivered == old(image.delivered) != image.whole
  {
    data, status := image.Read(max);
    assert |image.whole| == |image.delivered| + |image.dropped| + |image.source.Rest()|;
  }

  /** Such an end does come: a body one byte too long, from a source that gives whatever it is asked for and
      says at once when the body ends, is delivered up to the bound, then reported, and then ends cleanly. */
  method EndAfterOverrun(body: seq<byte>) returns (data: seq<byte>, delivery: Status, error: Status, end: Status)
    requires |body| == Imvault.MAX_IMAGE_BYTES + 1
    ensures data == body[..Imvault.MAX_IMAGE_BYTES] && delivery == More && error == Unavailable && end == EOF
  {
    var upstream := new Upstream(body, 0, _ => Choice(Imvault.MAX_IMAGE_BYTES + 1, true, false));
    var source := new MultiReader([], upstream);
    var image := new BoundedImage(source);
    data, delivery := image.Read(Imvault.MAX_IMAGE_BYTES);
    var rest;
    rest, error := image.Read(1);
    rest, end := image.Read(1);
  }

  /** io.ReadFull for the prefix. */
  method ReadFull(upstream: Upstream) returns (prefix: seq<byte>, status: Status)
    requires upstream.at <= |upstream.body|
    modifies upstream`asked, upstream`at, upstream`stalls, upstream`failed
    ensures upstream.at <= |upstream.body| && old(upstream.Rest()) == prefix + upstream.Rest()
    ensures |prefix| <= PREFIX_BYTES && status in {More, EOF, Failed}
    ensures status == More ==> |prefix| == PREFIX_BYTES
    ensures status == EOF ==> upstream.Rest() == []
    ensures status == Failed ==> upstream.failed
  {
    prefix, status := [], More;
    while |prefix| < PREFIX_BYTES && status == More
      invariant upstream.at <= |upstream.body| && old(upstream.Rest()) == prefix + upstream.Rest()
      invariant |prefix| <= PREFIX_BYTES && status in {More, EOF, Failed}
      invariant status == EOF ==> upstream.Rest() == []
      invariant status == Failed ==> upstream.failed
      decreases PREFIX_BYTES - |prefix| + upstream.stalls, if status == More then 1 else 0
    {
      var data;
      ghost var rest := upstream.Rest();
      data, status := upstream.Read(PREFIX_BYTES - |prefix|);
      assert prefix + rest == (prefix + data) + upstream.Rest();
      prefix := prefix + data;
    }
    if |prefix| == PREFIX_BYTES {
      status := More;
    }
  }

  /** The part of a body that shows what it is. */
  function Start(body: seq<byte>): seq<byte> {
    if |body| < PREFIX_BYTES then body else body[..PREFIX_BYTES]
  }

  datatype Opened = Stream(image: BoundedImage) | Refused

  /** What comes of a request: nothing, or a response with its status, announced length and body. */
  datatype Reply = NoReply | Reply(code: int, length: int, upstream: Upstream)

  predicate Askable(id: string, rendition: string) {
    Imvault.ValidId(id) && rendition in {"preview", "thumb"}
  }

  /** Looks at the first bytes, then gives the whole body within its bound. Nothing is asked for with a malformed
      identifier or rendition. An unusable response is closed on every path; a usable one is left open for
      the reader, who gets every byte, the prefix too. `reply` is what the request would come to. */
  method StreamImage(id: string, rendition: string, reply: Reply, isImage: seq<byte> -> bool) returns (r: Opened)
    requires reply.Reply? ==> reply.upstream.at == 0 && !reply.upstream.closed && !reply.upstream.failed
    modifies if reply.Reply? then {reply.upstream} else {}
    ensures !Askable(id, rendition) ==> r.Refused? && (reply.Reply? ==> unchanged(reply.upstream))
    ensures reply.NoReply? ==> r.Refused?
    ensures r.Refused? && reply.Reply? && Askable(id, rendition) ==>
      && reply.upstream.closed
      && (|| reply.code != 200 || reply.length > Imvault.MAX_IMAGE_BYTES || reply.upstream.failed
          || !isImage(Start(reply.upstream.body)))
    ensures r.Stream? ==>
      && reply.Reply? && Askable(id, rendition) && reply.code == 200 && reply.length <= Imvault.MAX_IMAGE_BYTES
      && !reply.upstream.closed && isImage(Start(reply.upstream.body))
      && fresh(r.image) && fresh(r.image.source) && r.image.source.upstream == reply.upstream
      && r.image.Valid() && r.image.delivered == [] && r.image.dropped == []
      && r.image.whole == reply.upstream.body
  {
    if !Askable(id, rendition) || reply.NoReply? {
      return Refused;
    }
    var upstream := reply.upstream;
    if reply.code != 200 || reply.length > Imvault.MAX_IMAGE_BYTES {
      upstream.Close();
      return Refused;
    }
    var prefix, status := ReadFull(upstream);
    assert upstream.body == prefix + upstream.Rest();
    assert status != Failed ==> prefix == Start(upstream.body);
    if status == Failed || !isImage(prefix) {
      upstream.Close();
      return Refused;
    }
    var source := new MultiReader(prefix, upstream);
    var image := new BoundedImage(source);
    return Stream(image);
  }
}
