/** Well-formed UTF-8, as in the table of RFC 3629, section 4, and what splitting a message does to it. */
module Utf8 {
  import opened Linkify

  predicate Within(b: char, lo: int, hi: int) {
    lo <= b as int <= hi
  }

  predicate Ascii(b: char) {
    b as int < 0x80
  }

  predicate Tail(b: char) {
    Within(b, 0x80, 0xBF)
  }

  /** The length of the well-formed character `s` begins with; 0 if there is none. */
  function RuneLength(s: Bytes): (n: nat)
    ensures n <= |s| && n <= 4
  {
    if s == [] then 0
    else if Ascii(s[0]) then 1
    else if |s| >= 2 && Within(s[0], 0xC2, 0xDF) && Tail(s[1]) then 2
    else if |s| >= 3 && ThreeBytes(s[0], s[1]) && Tail(s[2]) then 3
    else if |s| >= 4 && FourBytes(s[0], s[1]) && Tail(s[2]) && Tail(s[3]) then 4
    else 0
  }

  predicate ThreeBytes(a: char, b: char) {
    || (a as int == 0xE0 && Within(b, 0xA0, 0xBF))
    || (Within(a, 0xE1, 0xEC) && Tail(b))
    || (a as int == 0xED && Within(b, 0x80, 0x9F))
    || (Within(a, 0xEE, 0xEF) && Tail(b))
  }

  predicate FourBytes(a: char, b: char) {
    || (a as int == 0xF0 && Within(b, 0x90, 0xBF))
    || (Within(a, 0xF1, 0xF3) && Tail(b))
    || (a as int == 0xF4 && Within(b, 0x80, 0x8F))
  }

  predicate WellFormed(s: Bytes) {
    s == [] || (RuneLength(s) > 0 && WellFormed(s[RuneLength(s)..]))
  }

  /** A place no multi-byte character straddles in well-formed text: the start, the end, or
      just before an ASCII byte. */
  predicate Edge(s: Bytes, i: nat) {
    i == 0 || i == |s| || (i < |s| && Ascii(s[i]))
  }

  lemma RunesHaveTails(s: Bytes, i: nat)
    requires 0 < i < RuneLength(s)
    ensures !Ascii(s[i])
  {
  }

  lemma {:induction false} CutsWellFormed(s: Bytes, i: nat)
    requires WellFormed(s) && i <= |s| && Edge(s, i)
    ensures WellFormed(s[..i]) && WellFormed(s[i..])
    decreases |s|
  {
    if i == |s| {
      assert s[..i] == s;
    } else if i > 0 {
      var n := RuneLength(s);
      if i < n {
        RunesHaveTails(s, i);
        assert false;
      }
      assert s[n..][i - n] == s[i];
      CutsWellFormed(s[n..], i - n);
      assert s[n..][i - n..] == s[i..];
      assert s[..i][n..] == s[n..][..i - n];
      assert RuneLength(s[..i]) == n;
    }
  }

  lemma SliceIsWellFormed(s: Bytes, i: nat, j: nat)
    requires WellFormed(s) && i <= j <= |s| && Edge(s, i) && Edge(s, j)
    ensures WellFormed(s[i..j])
  {
    assert WellFormed(s[i..]) by {
      CutsWellFormed(s, i);
    }
    assert Edge(s[i..], j - i);
    CutsWellFormed(s[i..], j - i);
    assert s[i..][..j - i] == s[i..j];
  }

  ghost predicate LinkEdges(links: seq<Bytes>, text: Bytes)
    requires |links| == |text|
  {
    forall i :: 0 <= i < |links| && links[i] != [] ==> Ascii(text[i]) && Edge(text, i + |links[i]|)
  }

  /** Links begin with the letter h and stop before an ASCII byte. */
  lemma LinkHasEdges(w: Letters, text: Bytes, i: nat)
    requires i < |text| && LinkAt(w, text, i) != []
    ensures Ascii(text[i]) && Edge(text, i + |LinkAt(w, text, i)|)
  {
    assert HTTPS[0] == HTTP[0] == 'h' && text[i..][0] == text[i];
    AddressStops(text, i);
  }

  lemma LinksHaveEdges(w: Letters, text: Bytes)
    ensures LinkEdges(Links(w, text), text)
  {
    var links := Links(w, text);
    forall i | 0 <= i < |links| && links[i] != [] ensures Ascii(text[i]) && Edge(text, i + |links[i]|) {
      LinksIndex(w, text, i);
      LinkHasEdges(w, text, i);
    }
  }

  /** Each segment is a slice between two such places. */
  lemma {:induction false} SegmentHasEdges(links: seq<Bytes>, text: Bytes, o: nat, plain: bool, out: seq<Segment>,
          k: nat)
    returns (at: nat, end: nat)
    requires |links| == |text| && LinkEdges(links, text)
    requires Splits(links, text, o, |text|, plain, out) && Edge(text, o) && k < |out|
    ensures at <= end <= |text| && Edge(text, at) && Edge(text, end) && out[k].text == text[at..end]
    decreases out
  {
    var next := o + |out[0].text|;
    SplitIsLossless(links, text, next, |text|, out[0].url == [], out[1..]);
    if out[0].url == [] && next < |text| {
      assert links[next] != [];
    }
    if k == 0 {
      at, end := o, next;
    } else {
      at, end := SegmentHasEdges(links, text, next, out[0].url == [], out[1..], k - 1);
    }
  }

  lemma SlicesAreWellFormed(links: seq<Bytes>, text: Bytes, out: seq<Segment>)
    requires |links| == |text| && LinkEdges(links, text) && WellFormed(text)
    requires Splits(links, text, 0, |text|, false, out)
    ensures forall k :: 0 <= k < |out| ==> WellFormed(out[k].text)
  {
    forall k | 0 <= k < |out| ensures WellFormed(out[k].text) {
      var at, end := SegmentHasEdges(links, text, 0, false, out, k);
      SliceIsWellFormed(text, at, end);
    }
  }

  /** Splitting never cuts a character in two: the segments of well-formed text are well formed. */
  lemma SegmentsAreWellFormed(w: Letters, text: Bytes, out: seq<Segment>)
    requires WellFormed(text) && Splits(Links(w, text), text, 0, |text|, false, out)
    ensures forall k :: 0 <= k < |out| ==> WellFormed(out[k].text)
  {
    LinksHaveEdges(w, text);
    SlicesAreWellFormed(Links(w, text), text, out);
  }
}
