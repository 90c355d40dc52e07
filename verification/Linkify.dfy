/** Splitting message text into plain runs and bare http(s) links.

    A Go string is a byte string: here each `char` stands for one byte. Which runes are letters
    or digits is Unicode data, so it is a parameter: `Letters.before(t)` says whether the last rune
    of `t` is one, `Letters.within(t)` whether some rune of `t` is. */
module Linkify {
  import opened Ascii

  type Bytes = string

  datatype Letters = Letters(before: Bytes -> bool, within: Bytes -> bool)

  /** A run of text; `url` is empty for ordinary text and the address for a link. */
  datatype Segment = Segment(text: Bytes, url: Bytes)

  const HTTPS: Bytes := "https://"
  const HTTP: Bytes := "http://"

  /** strings.EqualFold against an ASCII scheme of the same byte length is ASCII folding: the only
      other runes that fold into it, such as the long s, take more than one byte. */
  predicate HasPrefixFold(text: Bytes, prefix: Bytes) {
    |prefix| <= |text| && forall k :: 0 <= k < |prefix| ==> Fold(text[k]) == prefix[k]
  }

  predicate HasScheme(text: Bytes) {
    HasPrefixFold(text, HTTPS) || HasPrefixFold(text, HTTP)
  }

  predicate StartsURL(w: Letters, text: Bytes, i: nat)
    requires i <= |text|
  {
    HasScheme(text[i..]) && (i == 0 || !w.before(text[..i]))
  }

  predicate IsURLTerminator(b: char) {
    b in [' ', '\t', '\n', '\r', 11 as char, 12 as char, '<', '>', '"']
  }

  predicate IsSentencePunctuation(b: char) {
    b in ['.', ',', ';', ':', '!', '?', '\'']
  }

  function Count(text: Bytes, b: char): nat {
    if text == [] then 0 else Count(text[1..], b) + if text[0] == b then 1 else 0
  }

  function TakeWhile(text: Bytes, stop: char -> bool): (n: nat)
    ensures n <= |text|
  {
    if text == [] || stop(text[0]) then 0 else 1 + TakeWhile(text[1..], stop)
  }

  /** The run of bytes from `i` up to the next terminator. */
  function TokenAt(text: Bytes, i: nat): Bytes
    requires i <= |text|
  {
    text[i..][..TakeWhile(text[i..], IsURLTerminator)]
  }

  // ----- Trimming -----

  predicate Outnumbered(text: Bytes, opener: char, closer: char) {
    text != [] && text[|text| - 1] == closer && Count(text, closer) > Count(text, opener)
  }

  /** The text does not end in sentence punctuation, nor in a closing bracket that outnumbers
      its openers. */
  predicate EndsWell(text: Bytes) {
    && (text != [] ==> !IsSentencePunctuation(text[|text| - 1]))
    && !Outnumbered(text, '(', ')')
    && !Outnumbered(text, '[', ']')
    && !Outnumbered(text, '{', '}')
  }

  /** `p` is the longest prefix of `text` that ends well. */
  ghost predicate IsLongestGoodPrefix(p: Bytes, text: Bytes) {
    && p <= text
    && EndsWell(p)
    && forall n :: |p| < n <= |text| ==> !EndsWell(text[..n])
  }

  ghost function Trimmed(text: Bytes): (p: Bytes)
    ensures p <= text
    decreases |text|
  {
    if EndsWell(text) then text else Trimmed(text[..|text| - 1])
  }

  lemma {:induction false} TrimmedIsLongest(text: Bytes)
    ensures IsLongestGoodPrefix(Trimmed(text), text)
    decreases |text|
  {
    assert text[..|text|] == text;
    if !EndsWell(text) {
      var shorter := text[..|text| - 1];
      TrimmedIsLongest(shorter);
      forall n | |Trimmed(text)| < n <= |text| ensures !EndsWell(text[..n]) {
        assert n < |text| ==> shorter[..n] == text[..n];
      }
    }
  }

  lemma LongestGoodPrefixIsUnique(p: Bytes, q: Bytes, text: Bytes)
    requires IsLongestGoodPrefix(p, text) && IsLongestGoodPrefix(q, text)
    ensures p == q
  {
    assert text[..|p|] == p && text[..|q|] == q;
  }

  /** strings.TrimRight with a set of one-byte characters. */
  method TrimRight(text: Bytes) returns (r: Bytes)
    ensures r <= text
    ensures r != [] ==> !IsSentencePunctuation(r[|r| - 1])
    ensures forall k :: |r| <= k < |text| ==> IsSentencePunctuation(text[k])
  {
    var end := |text|;
    while end > 0 && IsSentencePunctuation(text[end - 1])
      invariant 0 <= end <= |text|
      invariant forall k :: end <= k < |text| ==> IsSentencePunctuation(text[k])
    {
      end := end - 1;
    }
    r := text[..end];
  }

  /** Cuts an address down, from its end, until it ends well. */
  method TrimURL(text: Bytes) returns (token: Bytes)
    ensures IsLongestGoodPrefix(token, text)
    ensures token == Trimmed(text)
  {
    token := text;
    while true
      invariant token <= text
      invariant forall n :: |token| < n <= |text| ==> !EndsWell(text[..n])
      decreases |token|
    {
      var trimmed := TrimRight(token);
      if trimmed != token {
        forall n | |trimmed| < n <= |token| ensures !EndsWell(text[..n]) {
          assert text[..n][n - 1] == token[n - 1];
        }
        token := trimmed;
        continue;
      }
      assert text[..|token|] == token;
      if Outnumbered(token, '(', ')') {
        token := token[..|token| - 1];
      } else if Outnumbered(token, '[', ']') {
        token := token[..|token| - 1];
      } else if Outnumbered(token, '{', '}') {
        token := token[..|token| - 1];
      } else {
        break;
      }
    }
    TrimmedIsLongest(text);
    LongestGoodPrefixIsUnique(token, Trimmed(text), text);
  }

  // ----- Finding links -----

  predicate IsHostEnd(b: char) {
    b in ['/', '?', '#']
  }

  /** Where the first "://" is, as strings.Cut finds it; the length of `url` if there is none. */
  function Separator(url: Bytes): (at: nat)
    ensures at <= |url|
    ensures at < |url| ==> at + 3 <= |url| && url[at..at + 3] == "://"
  {
    if url == [] || (|url| >= 3 && url[..3] == "://") then 0 else 1 + Separator(url[1..])
  }

  /** Something follows the scheme, and its host holds a letter or digit. */
  predicate HasHost(w: Letters, url: Bytes) {
    var at := Separator(url);
    at + 3 < |url| && var rest := url[at + 3..]; w.within(rest[..TakeWhile(rest, IsHostEnd)])
  }

  /** The address a link at `i` would have. */
  ghost function AddressAt(text: Bytes, i: nat): Bytes
    requires i <= |text|
  {
    Trimmed(TokenAt(text, i))
  }

  /** The link that begins at `i`: its address, or nothing. */
  ghost function LinkAt(w: Letters, text: Bytes, i: nat): Bytes {
    if i <= |text| && StartsURL(w, text, i) && HasHost(w, AddressAt(text, i)) then AddressAt(text, i) else []
  }

  ghost function Tabulate(f: nat -> Bytes, n: nat): (table: seq<Bytes>)
    ensures |table| == n
  {
    if n == 0 then [] else Tabulate(f, n - 1) + [f(n - 1)]
  }

  lemma {:induction false} TabulateIndex(f: nat -> Bytes, n: nat, i: nat)
    requires i < n
    ensures Tabulate(f, n)[i] == f(i)
    decreases n
  {
    if i < n - 1 {
      TabulateIndex(f, n - 1, i);
    }
  }

  /** The links of a text, by position. */
  ghost function Links(w: Letters, text: Bytes): (links: seq<Bytes>)
    ensures |links| == |text|
  {
    Tabulate((i: nat) => LinkAt(w, text, i), |text|)
  }

  /** Reads the address at `i`; `end` is where it stops, `i` itself when there is none. */
  method URLAt(w: Letters, text: Bytes, i: nat) returns (url: Bytes, end: nat)
    requires i <= |text|
    ensures i <= end == i + |url| <= |text|
    ensures end != i <==> HasHost(w, AddressAt(text, i))
    ensures url == text[i..end] && (end != i ==> url == AddressAt(text, i))
  {
    var stop := i;
    while stop < |text| && !IsURLTerminator(text[stop])
      invariant i <= stop <= |text|
      invariant TakeWhile(text[i..], IsURLTerminator) == stop - i + TakeWhile(text[stop..], IsURLTerminator)
    {
      stop := stop + 1;
    }
    assert text[i..stop] == TokenAt(text, i);
    var token := TrimURL(text[i..stop]);
    if !HasHost(w, token) {
      return [], i;
    }
    return token, i + |token|;
  }

  // ----- Splitting -----

  /** `s` is right for the text at `o`: a whole link, or text no position of which begins a link. */
  ghost predicate Fits(links: seq<Bytes>, text: Bytes, o: nat, s: Segment)
    requires |links| == |text|
  {
    && s.text != []
    && o + |s.text| <= |text|
    && s.text == text[o..o + |s.text|]
    && if s.url != [] then s.url == s.text == links[o]
       else forall p :: o <= p < o + |s.text| ==> links[p] == []
  }

  /** `out` splits the bytes from `o` to `n`: in order, without loss, and with no plain text cut in
      two. `plain` says whether plain text comes just before. */
  ghost predicate Splits(links: seq<Bytes>, text: Bytes, o: nat, n: nat, plain: bool, out: seq<Segment>)
    requires |links| == |text|
    decreases out
  {
    if out == [] then o == n <= |text|
    else
      && Fits(links, text, o, out[0])
      && (plain ==> out[0].url != [])
      && Splits(links, text, o + |out[0].text|, n, out[0].url == [], out[1..])
  }

  ghost predicate EndsPlain(out: seq<Segment>, plain: bool) {
    if out == [] then plain else out[|out| - 1].url == []
  }

  lemma {:induction false} SplitsPush(links: seq<Bytes>, text: Bytes, o: nat, n: nat, plain: bool, out: seq<Segment>,
          s: Segment)
    requires |links| == |text|
    requires Splits(links, text, o, n, plain, out)
    requires n <= |text| && Fits(links, text, n, s)
    requires EndsPlain(out, plain) ==> s.url != []
    ensures Splits(links, text, o, n + |s.text|, plain, out + [s])
    decreases out
  {
    if out != [] {
      SplitsPush(links, text, o + |out[0].text|, n, out[0].url == [], out[1..], s);
      assert (out + [s])[1..] == out[1..] + [s];
    }
  }

  /** The link at `i`, if there is one, and where it stops. */
  method LinkFrom(w: Letters, text: Bytes, i: nat) returns (url: Bytes, end: nat)
    requires i < |text|
    ensures url == Links(w, text)[i]
    ensures end == i + |url| <= |text| && url == text[i..end]
  {
    TabulateIndex((p: nat) => LinkAt(w, text, p), |text|, i);
    if !StartsURL(w, text, i) {
      return [], i;
    }
    url, end := URLAt(w, text, i);
  }

  /** Appends the plain text since `last`, if there is any. */
  method PushPlain(ghost links: seq<Bytes>, text: Bytes, last: nat, i: nat, out: seq<Segment>)
    returns (extended: seq<Segment>)
    requires |links| == |text| && last <= i <= |text|
    requires Splits(links, text, 0, last, false, out) && !EndsPlain(out, false)
    requires forall p :: last <= p < i ==> links[p] == []
    ensures Splits(links, text, 0, i, false, extended)
  {
    if i <= last {
      return out;
    }
    SplitsPush(links, text, 0, last, false, out, Segment(text[last..i], []));
    extended := out + [Segment(text[last..i], [])];
  }

  method PushLink(ghost links: seq<Bytes>, text: Bytes, i: nat, url: Bytes, out: seq<Segment>)
    returns (extended: seq<Segment>)
    requires |links| == |text| && i < |text| && i + |url| <= |text|
    requires url == links[i] == text[i..i + |url|] && url != []
    requires Splits(links, text, 0, i, false, out)
    ensures Splits(links, text, 0, i + |url|, false, extended) && !EndsPlain(extended, false)
  {
    SplitsPush(links, text, 0, i, false, out, Segment(url, url));
    extended := out + [Segment(url, url)];
  }

  /** Scans a message once, from left to right, for links and the text between them. */
  method Segments(w: Letters, text: Bytes) returns (out: seq<Segment>)
    ensures Splits(Links(w, text), text, 0, |text|, false, out)
  {
    ghost var links := Links(w, text);
    out := [];
    var last: nat := 0;
    var i: nat := 0;
    while i < |text|
      invariant last <= i <= |text|
      invariant Splits(links, text, 0, last, false, out) && !EndsPlain(out, false)
      invariant forall p :: last <= p < i ==> links[p] == []
    {
      var url, end := LinkFrom(w, text, i);
      if end != i {
        out := PushPlain(links, text, last, i, out);
        out := PushLink(links, text, i, url, out);
        last := end;
        i := end - 1;
      }
      i := i + 1;
    }
    out := PushPlain(links, text, last, |text|, out);
  }

  // ----- What a split is -----

  ghost function Joined(out: seq<Segment>): Bytes {
    if out == [] then [] else out[0].text + Joined(out[1..])
  }

  /** Nothing is lost: the segments' texts, put together, are the text. */
  lemma {:induction false} SplitIsLossless(links: seq<Bytes>, text: Bytes, o: nat, n: nat, plain: bool,
          out: seq<Segment>)
    requires |links| == |text| && Splits(links, text, o, n, plain, out)
    ensures o <= n <= |text| && Joined(out) == text[o..n]
    decreases out
  {
    if out == [] {
      assert text[o..n] == [];
    } else {
      var next := o + |out[0].text|;
      SplitIsLossless(links, text, next, n, out[0].url == [], out[1..]);
      assert text[o..n] == text[o..next] + text[next..n];
    }
  }

  /** A text has one split only, so the split is determined by where links begin. */
  lemma {:induction false} SplitIsUnique(links: seq<Bytes>, text: Bytes, o: nat, plain: bool, a: seq<Segment>,
          b: seq<Segment>)
    requires |links| == |text|
    requires Splits(links, text, o, |text|, plain, a) && Splits(links, text, o, |text|, plain, b)
    ensures a == b
    decreases a
  {
    if a != [] && b != [] {
      if |a[0].text| < |b[0].text| {
        SplitHeadsAgree(links, text, o, plain, a, b);
      } else {
        SplitHeadsAgree(links, text, o, plain, b, a);
      }
      SplitIsUnique(links, text, o + |a[0].text|, a[0].url == [], a[1..], b[1..]);
    } else {
      SplitIsLossless(links, text, o, |text|, plain, a);
      SplitIsLossless(links, text, o, |text|, plain, b);
    }
  }

  lemma SplitHeadsAgree(links: seq<Bytes>, text: Bytes, o: nat, plain: bool, a: seq<Segment>, b: seq<Segment>)
    requires |links| == |text| && a != [] && b != [] && |a[0].text| <= |b[0].text|
    requires Splits(links, text, o, |text|, plain, a) && Splits(links, text, o, |text|, plain, b)
    ensures a[0] == b[0]
  {
    // If both start with plain text, a link begins where the shorter one ends.
  }

  ghost predicate Alternates(out: seq<Segment>) {
    forall k :: 0 <= k < |out| - 1 ==> (out[k].url == [] <==> out[k + 1].url != [])
  }

  lemma {:induction false} TakeWhileStops(text: Bytes, stop: char -> bool)
    ensures forall k :: 0 <= k < TakeWhile(text, stop) ==> !stop(text[k])
    ensures TakeWhile(text, stop) < |text| ==> stop(text[TakeWhile(text, stop)])
    decreases text
  {
    if text != [] && !stop(text[0]) {
      TakeWhileStops(text[1..], stop);
      forall k | 1 <= k < TakeWhile(text, stop) ensures !stop(text[k]) {
        assert text[k] == text[1..][k - 1];
      }
    }
  }

  lemma TokenStops(text: Bytes, i: nat)
    requires i <= |text|
    ensures var t := TokenAt(text, i);
      && i + |t| <= |text| && t == text[i..i + |t|]
      && (forall k :: 0 <= k < |t| ==> !IsURLTerminator(t[k]))
      && (i + |t| < |text| ==> IsURLTerminator(text[i + |t|]))
  {
    TakeWhileStops(text[i..], IsURLTerminator);
  }

  predicate IsCloser(b: char) {
    b in [')', ']', '}']
  }

  /** The first byte trimmed off is sentence punctuation or a closing bracket. */
  lemma TrimStops(token: Bytes)
    requires |Trimmed(token)| < |token|
    ensures var b := token[|Trimmed(token)|]; IsSentencePunctuation(b) || IsCloser(b)
  {
    var p := Trimmed(token);
    TrimmedIsLongest(token);
    var next := token[..|p| + 1];
    assert !EndsWell(next);
    assert next[|next| - 1] == token[|p|];
  }

  /** What can follow an address: a terminator, or punctuation or a bracket trimmed off. */
  predicate IsStop(b: char) {
    IsURLTerminator(b) || IsSentencePunctuation(b) || IsCloser(b)
  }

  lemma AddressStops(text: Bytes, i: nat)
    requires i <= |text|
    ensures var end := i + |AddressAt(text, i)|; end <= |text| && (end < |text| ==> IsStop(text[end]))
  {
    var token := TokenAt(text, i);
    TokenStops(text, i);
    if |Trimmed(token)| < |token| {
      TrimStops(token);
      assert text[i + |Trimmed(token)|] == token[|Trimmed(token)|];
    }
  }

  lemma NoLinkAtStop(w: Letters, text: Bytes, i: nat)
    requires i <= |text| && (i < |text| ==> IsStop(text[i]))
    ensures LinkAt(w, text, i) == []
  {
    assert HTTPS[0] == HTTP[0] == 'h';
    if i < |text| {
      assert text[i..][0] == text[i] && Fold(text[i]) != 'h';
    }
    assert !HasScheme(text[i..]);
  }

  /** No link begins right after another one, because no stop begins a scheme. */
  lemma LinksDoNotTouch(w: Letters, text: Bytes, i: nat, url: Bytes, next: nat)
    requires i < |text| && url == LinkAt(w, text, i) && url != [] && next == i + |url|
    ensures next <= |text| && LinkAt(w, text, next) == []
  {
    AddressStops(text, i);
    NoLinkAtStop(w, text, next);
  }

  ghost predicate Apart(links: seq<Bytes>) {
    forall i, j :: 0 <= i < j < |links| && links[i] != [] && j == i + |links[i]| ==> links[j] == []
  }

  lemma TableIsApart(f: nat -> Bytes, n: nat)
    requires forall i: nat, j: nat | i < j < n && f(i) != [] && j == i + |f(i)| :: f(j) == []
    ensures Apart(Tabulate(f, n))
  {
    var links := Tabulate(f, n);
    forall i, j | 0 <= i < j < n && links[i] != [] && j == i + |links[i]| ensures links[j] == [] {
      TabulateIndex(f, n, i);
      TabulateIndex(f, n, j);
    }
  }

  lemma LinksAreApart(w: Letters, text: Bytes)
    ensures Apart(Links(w, text))
  {
    var f := (i: nat) => LinkAt(w, text, i);
    forall i: nat, j: nat | i < j < |text| && f(i) != [] && j == i + |f(i)| ensures f(j) == [] {
      LinksDoNotTouch(w, text, i, f(i), j);
    }
    TableIsApart(f, |text|);
  }

  lemma {:induction false} ApartAlternates(links: seq<Bytes>, text: Bytes, o: nat, n: nat, plain: bool,
          out: seq<Segment>)
    requires |links| == |text| && Apart(links) && Splits(links, text, o, n, plain, out)
    ensures Alternates(out)
    decreases out
  {
    if |out| > 1 {
      ApartAlternates(links, text, o + |out[0].text|, n, out[0].url == [], out[1..]);
      assert out[1] == out[1..][0];
      forall k | 1 <= k < |out| - 1 ensures out[k].url == [] <==> out[k + 1].url != [] {
        assert out[k] == out[1..][k - 1] && out[k + 1] == out[1..][k];
      }
    }
  }

  /** Plain text and links strictly alternate. */
  lemma SegmentsAlternate(w: Letters, text: Bytes, out: seq<Segment>)
    requires Splits(Links(w, text), text, 0, |text|, false, out)
    ensures Alternates(out)
  {
    LinksAreApart(w, text);
    ApartAlternates(Links(w, text), text, 0, |text|, false, out);
  }

  lemma LinksIndex(w: Letters, text: Bytes, i: nat)
    requires i < |text|
    ensures Links(w, text)[i] == LinkAt(w, text, i)
  {
    TabulateIndex((p: nat) => LinkAt(w, text, p), |text|, i);
  }

  /** Each segment fits the place it is at: the texts before it, put together, say where. */
  lemma {:induction false} SegmentsFit(links: seq<Bytes>, text: Bytes, o: nat, n: nat, plain: bool,
          out: seq<Segment>, k: nat)
    returns (at: nat)
    requires |links| == |text| && Splits(links, text, o, n, plain, out) && k < |out|
    ensures at == o + |Joined(out[..k])| && Fits(links, text, at, out[k])
    decreases out
  {
    if k == 0 {
      at := o;
    } else {
      at := SegmentsFit(links, text, o + |out[0].text|, n, out[0].url == [], out[1..], k - 1);
      assert out[..k][1..] == out[1..][..k - 1];
    }
  }

  // ----- What a link is -----

  predicate LooksLikeLink(w: Letters, url: Bytes) {
    && HasScheme(url)
    && HasHost(w, url)
    && EndsWell(url)
    && forall k :: 0 <= k < |url| ==> !IsURLTerminator(url[k])
  }

  lemma TokenKeepsScheme(text: Bytes, i: nat)
    requires i <= |text| && HasScheme(text[i..])
    ensures HasScheme(TokenAt(text, i))
  {
    var rest, t := text[i..], TokenAt(text, i);
    TakeWhileStops(rest, IsURLTerminator);
    var scheme := if HasPrefixFold(rest, HTTPS) then HTTPS else HTTP;
    if |t| < |scheme| {
      assert false;
    }
    assert HasPrefixFold(t, scheme);
  }

  /** Trimming never cuts into the scheme, because a scheme ends in a slash. */
  lemma TrimKeepsScheme(token: Bytes)
    requires HasScheme(token)
    ensures HasScheme(Trimmed(token))
  {
    var scheme := if HasPrefixFold(token, HTTPS) then HTTPS else HTTP;
    var head := token[..|scheme|];
    assert head[|head| - 1] == token[|scheme| - 1] == '/';
    assert EndsWell(head);
    TrimmedIsLongest(token);
    assert HasPrefixFold(Trimmed(token), scheme);
  }

  /** Every link found in a text is an http(s) address at a word boundary, with a host, that holds no
      terminator and ends well. */
  lemma LinksLookRight(w: Letters, text: Bytes, i: nat)
    requires i < |text|
    ensures LinkAt(w, text, i) != [] ==> LooksLikeLink(w, LinkAt(w, text, i)) && (i == 0 || !w.before(text[..i]))
  {
    if LinkAt(w, text, i) != [] {
      TokenKeepsScheme(text, i);
      TrimKeepsScheme(TokenAt(text, i));
      TrimmedIsLongest(TokenAt(text, i));
      TokenStops(text, i);
    }
  }

  /** What holds of every link of the table holds of every link segment. */
  lemma {:induction false} LinkSegmentsAre(links: seq<Bytes>, good: Bytes -> bool, text: Bytes, o: nat, n: nat,
          plain: bool, out: seq<Segment>)
    requires |links| == |text| && Splits(links, text, o, n, plain, out)
    requires forall i :: 0 <= i < |links| && links[i] != [] ==> good(links[i])
    ensures forall s :: s in out && s.url != [] ==> s.url == s.text && good(s.url)
    decreases out
  {
    if out != [] {
      LinkSegmentsAre(links, good, text, o + |out[0].text|, n, out[0].url == [], out[1..]);
      assert out == [out[0]] + out[1..];
    }
  }

  lemma TableLinkLooksRight(w: Letters, text: Bytes, i: nat)
    requires i < |text| && Links(w, text)[i] != []
    ensures LooksLikeLink(w, Links(w, text)[i])
  {
    calc {
      LooksLikeLink(w, Links(w, text)[i]);
      { LinksIndex(w, text, i); }
      LooksLikeLink(w, LinkAt(w, text, i));
      { LinksIndex(w, text, i); LinksLookRight(w, text, i); }
      true;
    }
  }

  lemma LinkSegmentsLookRight(w: Letters, text: Bytes, out: seq<Segment>)
    requires Splits(Links(w, text), text, 0, |text|, false, out)
    ensures forall s :: s in out && s.url != [] ==> s.url == s.text && LooksLikeLink(w, s.url)
  {
    var good := url => LooksLikeLink(w, url);
    forall i | 0 <= i < |text| && Links(w, text)[i] != [] ensures good(Links(w, text)[i]) {
      TableLinkLooksRight(w, text, i);
    }
    LinkSegmentsAre(Links(w, text), good, text, 0, |text|, false, out);
    assert forall url :: good(url) ==> LooksLikeLink(w, url);
  }

  /** Trimming twice is trimming once. */
  lemma TrimIsIdempotent(token: Bytes)
    ensures Trimmed(Trimmed(token)) == Trimmed(token)
  {
    TrimmedIsLongest(token);
  }

  /** Reading a link's own text finds that one link again, whatever surrounded it at first. */
  lemma LinkIsItsOwnSplit(w: Letters, url: Bytes, out: seq<Segment>)
    requires LooksLikeLink(w, url)
    requires Splits(Links(w, url), url, 0, |url|, false, out)
    ensures out == [Segment(url, url)]
  {
    assert url[0..] == url;
    TakeWhileStops(url, IsURLTerminator);
    assert TokenAt(url, 0) == url;
    assert LinkAt(w, url, 0) == url;
    LinksIndex(w, url, 0);
    var one := [Segment(url, url)];
    assert one[1..] == [];
    assert Splits(Links(w, url), url, 0, |url|, false, one);
    SplitIsUnique(Links(w, url), url, 0, false, out, one);
  }
}
