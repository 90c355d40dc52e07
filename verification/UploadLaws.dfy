/** What stands behind the images of a message: which answers of the server, in which order. */
module UploadLaws {
  import opened Schema
  import opened Imvault
  import opened Uploads

  /** The server's answer to some request since `from` and before `to` is about this very image, and says what is
      shown of it. */
  ghost predicate Named(s: Server, image: Image, from: nat, to: nat) {
    exists n: nat :: from <= n < to && NamedBy(s.answers(n), image)
  }

  ghost predicate NamedBy(r: Response, image: Image) {
    && r.Response? && |r.files| == 1
    && var f := r.files[0];
    && f.id == image.remoteId && f.name == image.name && ValidId(f.id)
    && ((f.kind == "image" && image.rendition == Preview) || (f.kind == "animated" && image.rendition == Thumb))
    && (r.status == 200 || (r.status == 201 && !r.errors && f.isPrivate))
  }

  /** An image stands on an answer to the member's own credential, or needs none because an answer without one
      showed it to anyone. */
  ghost predicate Verified(s: Server, o: Poster, image: Image, from: nat, to: nat) {
    && image.server == s.base
    && match image.credential
       case Some(user) => user == o.user && o.token && Named(s, image, from, to)
       case None =>
         && ValidId(image.remoteId) && image.name == "Image from imvault" && image.rendition == Thumb
         && exists n: nat :: from <= n < to && ShownBy(s.answers(n))
  }

  ghost predicate ShownBy(r: Response) {
    r.Response? && r.status == 200
  }

  ghost predicate AllVerified(s: Server, o: Poster, images: seq<Image>, from: nat, to: nat) {
    forall image :: image in images ==> Verified(s, o, image, from, to)
  }

  lemma StillVerified(s: Server, o: Poster, images: seq<Image>, from: nat, to: nat, later: nat)
    requires AllVerified(s, o, images, from, to) && to <= later
    ensures AllVerified(s, o, images, from, later)
  {
    forall image | image in images ensures Verified(s, o, image, from, later) {
      assert Verified(s, o, image, from, to);
      if image.credential.Some? {
        var n: nat :| from <= n < to && NamedBy(s.answers(n), image);
        assert n < later;
      } else {
        var n: nat :| from <= n < to && ShownBy(s.answers(n));
        assert n < later;
      }
    }
  }

  lemma OneMoreVerified(s: Server, o: Poster, images: seq<Image>, image: Image, from: nat, to: nat, later: nat)
    requires AllVerified(s, o, images, from, to) && to <= later && Verified(s, o, image, from, later)
    ensures AllVerified(s, o, With(images, image), from, later) && images <= With(images, image)
  {
    StillVerified(s, o, images, from, to, later);
  }

  lemma FileIsNamed(s: Server, o: Poster, f: File, n: nat, from: nat, to: nat)
    requires o.token && from <= n < to && IsImage(f)
    requires FileIn(s.answers(n), f.id) == Some(f)
          || (Accepted(s.answers(n)) && s.answers(n).files == [f])
    ensures Verified(s, o, ImageOf(s.base, f, o.user), from, to)
  {
    assert NamedBy(s.answers(n), ImageOf(s.base, f, o.user));
  }

  lemma {:induction false} ChosenAreVerified(s: Server, o: Poster, ids: seq<string>, g: Gathered, from: nat)
    requires from <= g.requests && AllVerified(s, o, g.images, from, g.requests) && Chosen(s, o, ids, g).Some?
    ensures var h := Chosen(s, o, ids, g).value;
      && g.requests <= h.requests && g.images <= h.images && AllVerified(s, o, h.images, from, h.requests)
    decreases ids
  {
    if ids != [] {
      var f := FileIn(s.answers(g.requests), ids[0]).value;
      var image := ImageOf(s.base, f, o.user);
      FileIsNamed(s, o, f, g.requests, from, g.requests + 1);
      OneMoreVerified(s, o, g.images, image, from, g.requests, g.requests + 1);
      ChosenAreVerified(s, o, ids[1..], g.(images := With(g.images, image), requests := g.requests + 1), from);
    }
  }

  lemma OwnLinkIsVerified(s: Server, o: Poster, id: string, g: Gathered, from: nat)
    requires from <= g.requests && AllVerified(s, o, g.images, from, g.requests)
    requires o.token && FileIn(s.answers(g.requests + 1), id).Some?
    ensures var images := With(g.images, ImageOf(s.base, FileIn(s.answers(g.requests + 1), id).value, o.user));
      AllVerified(s, o, images, from, g.requests + 2) && g.images <= images
  {
    var n, f := g.requests, FileIn(s.answers(g.requests + 1), id).value;
    FileIsNamed(s, o, f, n + 1, from, n + 2);
    OneMoreVerified(s, o, g.images, ImageOf(s.base, f, o.user), from, n, n + 2);
  }

  lemma OneFollowed(s: Server, o: Poster, links: seq<string>, g: Gathered, from: nat) returns (next: Gathered)
    requires from <= g.requests && AllVerified(s, o, g.images, from, g.requests)
    requires links != [] && Followed(s, o, links, g).Some?
    ensures Followed(s, o, links, g) == Followed(s, o, links[1..], next)
    ensures g.requests <= next.requests && g.images <= next.images
    ensures AllVerified(s, o, next.images, from, next.requests)
  {
    var id, n := s.parse(links[0]).value, g.requests;
    if id in IdsOf(g.images) {
      next := g;
    } else if Shows(s.answers(n)) {
      var image := Image(s.base, id, None, "Image from imvault", Thumb);
      assert ShownBy(s.answers(n));
      OneMoreVerified(s, o, g.images, image, from, n, n + 1);
      next := g.(images := With(g.images, image), requests := n + 1);
    } else {
      var image := ImageOf(s.base, FileIn(s.answers(n + 1), id).value, o.user);
      OwnLinkIsVerified(s, o, id, g, from);
      next := g.(images := With(g.images, image), requests := n + 2);
    }
  }

  lemma {:induction false} FollowedAreVerified(s: Server, o: Poster, links: seq<string>, g: Gathered, from: nat)
    requires from <= g.requests && AllVerified(s, o, g.images, from, g.requests) && Followed(s, o, links, g).Some?
    ensures var h := Followed(s, o, links, g).value;
      && g.requests <= h.requests && g.images <= h.images && AllVerified(s, o, h.images, from, h.requests)
    decreases links
  {
    if links != [] {
      var next := OneFollowed(s, o, links, g, from);
      FollowedAreVerified(s, o, links[1..], next, from);
    }
  }

  lemma {:induction false} UploadedAreVerified(s: Server, o: Poster, uploads: seq<Upload>, g: Gathered, from: nat)
    requires from <= g.requests && AllVerified(s, o, g.images, from, g.requests) && Uploaded(s, o, uploads, g).Some?
    ensures var h := Uploaded(s, o, uploads, g).value;
      && g.requests <= h.requests && g.images <= h.images && AllVerified(s, o, h.images, from, h.requests)
    decreases uploads
  {
    if uploads != [] {
      var f, n := s.answers(g.requests).files[0], g.requests;
      var image := ImageOf(s.base, f, o.user);
      FileIsNamed(s, o, f, n, from, n + 1);
      OneMoreVerified(s, o, g.images, image, from, n, n + 1);
      UploadedAreVerified(s, o, uploads[1..], Gathered(With(g.images, image), g.created + [f.id], n + 1), from);
    }
  }

  /** Whatever is attached was verified for this request: by an answer about that very image to the member's own
      credential, or as public. What was chosen comes first, then what was linked, then what was uploaded. */
  lemma ObtainedAreVerified(s: Server, o: Poster, wanted: Wanted, requests: nat)
    requires Obtained(s, o, wanted, requests).Some?
    ensures var g := Obtained(s, o, wanted, requests).value;
      && AllVerified(s, o, g.images, requests, g.requests)
      && (g.images != [] ==> s.configured)
      && (|wanted.ids| + |wanted.links| + |wanted.uploads| > 0 ==>
            && Chosen(s, o, wanted.ids, Gathered([], [], requests)).Some?
            && var chosen := Chosen(s, o, wanted.ids, Gathered([], [], requests)).value;
            && Followed(s, o, wanted.links, chosen).Some?
            && chosen.images <= Followed(s, o, wanted.links, chosen).value.images <= g.images)
  {
    if |wanted.ids| + |wanted.links| + |wanted.uploads| > 0 {
      var nothing := Gathered([], [], requests);
      ChosenAreVerified(s, o, wanted.ids, nothing, requests);
      var g := Chosen(s, o, wanted.ids, nothing).value;
      FollowedAreVerified(s, o, wanted.links, g, requests);
      UploadedAreVerified(s, o, wanted.uploads, Followed(s, o, wanted.links, g).value, requests);
    }
  }

  // ----- When each stage goes through -----

  ghost predicate Confirms(s: Server, o: Poster, id: string, n: nat) {
    o.token && ValidId(id) && FileIn(s.answers(n), id).Some?
  }

  ghost predicate AllConfirmed(s: Server, o: Poster, ids: seq<string>, n: nat) {
    forall k :: 0 <= k < |ids| ==> Confirms(s, o, ids[k], n + k)
  }

  lemma ConfirmedSplit(s: Server, o: Poster, ids: seq<string>, n: nat)
    requires ids != []
    ensures AllConfirmed(s, o, ids, n) <==> Confirms(s, o, ids[0], n) && AllConfirmed(s, o, ids[1..], n + 1)
  {
    forall k | 1 <= k < |ids| && AllConfirmed(s, o, ids[1..], n + 1) ensures Confirms(s, o, ids[k], n + k) {
      assert Confirms(s, o, ids[1..][k - 1], n + 1 + (k - 1));
    }
    forall k | 0 <= k < |ids[1..]| && AllConfirmed(s, o, ids, n) ensures Confirms(s, o, ids[1..][k], n + 1 + k) {
      assert Confirms(s, o, ids[k + 1], n + (k + 1));
    }
  }

  /** Choosing goes through exactly if the account is connected and the answers, one for each image, confirm it. */
  lemma {:induction false} ChosenExactly(s: Server, o: Poster, ids: seq<string>, g: Gathered)
    ensures Chosen(s, o, ids, g).Some? <==> AllConfirmed(s, o, ids, g.requests)
    decreases ids
  {
    if ids != [] {
      ConfirmedSplit(s, o, ids, g.requests);
      if Confirms(s, o, ids[0], g.requests) {
        var image := ImageOf(s.base, FileIn(s.answers(g.requests), ids[0]).value, o.user);
        ChosenExactly(s, o, ids[1..], g.(images := With(g.images, image), requests := g.requests + 1));
      }
    }
  }

  /** An upload goes through exactly if the account is connected, the file can be read, is small enough and looks
      right, and the answer names one private image without errors. */
  ghost predicate Accepts(s: Server, o: Poster, u: Upload, n: nat) {
    && o.token && u.size <= 8 * 1024 * 1024 && u.readable && u.looksRight
    && s.answers(n).Response? && s.answers(n).status == 201 && !s.answers(n).errors
    && |s.answers(n).files| == 1 && IsImage(s.answers(n).files[0]) && s.answers(n).files[0].isPrivate
  }

  ghost predicate AllAccepted(s: Server, o: Poster, uploads: seq<Upload>, n: nat) {
    forall k :: 0 <= k < |uploads| ==> Accepts(s, o, uploads[k], n + k)
  }

  lemma AcceptedSplit(s: Server, o: Poster, uploads: seq<Upload>, n: nat)
    requires uploads != []
    ensures AllAccepted(s, o, uploads, n) <==>
            Accepts(s, o, uploads[0], n) && AllAccepted(s, o, uploads[1..], n + 1)
  {
    forall k | 1 <= k < |uploads| && AllAccepted(s, o, uploads[1..], n + 1) ensures Accepts(s, o, uploads[k], n + k) {
      assert Accepts(s, o, uploads[1..][k - 1], n + 1 + (k - 1));
    }
    forall k | 0 <= k < |uploads[1..]| && AllAccepted(s, o, uploads, n)
      ensures Accepts(s, o, uploads[1..][k], n + 1 + k)
    {
      assert Accepts(s, o, uploads[k + 1], n + (k + 1));
    }
  }

  lemma {:induction false} UploadedExactly(s: Server, o: Poster, uploads: seq<Upload>, g: Gathered)
    ensures Uploaded(s, o, uploads, g).Some? <==> AllAccepted(s, o, uploads, g.requests)
    decreases uploads
  {
    if uploads != [] {
      AcceptedSplit(s, o, uploads, g.requests);
      if Accepts(s, o, uploads[0], g.requests) {
        var f := s.answers(g.requests).files[0];
        UploadedExactly(s, o, uploads[1..],
          Gathered(With(g.images, ImageOf(s.base, f, o.user)), g.created + [f.id], g.requests + 1));
      }
    }
  }

  /** Links go through one after the other: following some and then others is following them all. */
  lemma {:induction false} FollowedJoins(s: Server, o: Poster, a: seq<string>, b: seq<string>, g: Gathered)
    ensures Followed(s, o, a + b, g) == match Followed(s, o, a, g)
              case None => None
              case Some(h) => Followed(s, o, b, h)
    decreases a
  {
    if a == [] {
      assert a + b == b;
    } else {
      assert (a + b)[0] == a[0] && (a + b)[1..] == a[1..] + b;
      var id := s.parse(a[0]);
      if id.Some? {
        FollowedOn(s, o, a, b, g, id.value);
      }
    }
  }

  lemma {:induction false} FollowedOn(s: Server, o: Poster, a: seq<string>, b: seq<string>, g: Gathered, id: string)
    requires a != [] && s.parse(a[0]) == Some(id)
    ensures Followed(s, o, [a[0]] + (a[1..] + b), g) == match Followed(s, o, a, g)
              case None => None
              case Some(h) => Followed(s, o, b, h)
    decreases a, 0
  {
    var all := [a[0]] + (a[1..] + b);
    assert all[1..] == a[1..] + b;
    if id in IdsOf(g.images) {
      FollowedJoins(s, o, a[1..], b, g);
    } else if Shows(s.answers(g.requests)) {
      var image := Image(s.base, id, None, "Image from imvault", Thumb);
      FollowedJoins(s, o, a[1..], b, g.(images := With(g.images, image), requests := g.requests + 1));
    } else if FileIn(s.answers(g.requests + 1), id).Some? {
      var image := ImageOf(s.base, FileIn(s.answers(g.requests + 1), id).value, o.user);
      FollowedJoins(s, o, a[1..], b, g.(images := With(g.images, image), requests := g.requests + 2));
    }
  }

  /** One link goes through exactly if it is to this server and its image is there already, is public, or is the
      member's own. */
  lemma LinkExactly(s: Server, o: Poster, link: string, g: Gathered)
    ensures Followed(s, o, [link], g).Some? <==>
            && s.parse(link).Some?
            && var id := s.parse(link).value;
               || (exists image :: image in g.images && image.remoteId == id)
               || (ValidId(id) && ShownBy(s.answers(g.requests)))
               || Confirms(s, o, id, g.requests + 1)
  {
    assert [link][1..] == [];
  }
}
