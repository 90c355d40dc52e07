/** The images of one message: verified references, and files uploaded for it that are deleted again if
    the message does not come about. */
module Uploads {
  import opened Schema
  import opened Imvault
  import opened Listing
  import PostOps

  const MAX_IMAGES := 4

  datatype Upload = Upload(size: nat, readable: bool, looksRight: bool)

  /** What a form asks to attach: images chosen from a library, links, and files to upload. */
  datatype Wanted = Wanted(ids: seq<string>, links: seq<string>, uploads: seq<Upload>)

  function IdsOf(images: seq<Image>): set<string> {
    set image | image in images :: image.remoteId
  }

  /** The identifiers some links name. */
  function Linked(parse: string -> Option<string>, links: seq<string>): set<string> {
    if links == [] then {}
    else
      var id := parse(links[0]);
      (if id.Some? then {id.value} else {}) + Linked(parse, links[1..])
  }

  /** No image twice, all from one server, on the member's own credential or none. */
  ghost predicate Tidy(images: seq<Image>, server: string, user: Id) {
    && (forall i, j | 0 <= i < j < |images| :: images[i].remoteId != images[j].remoteId)
    && (forall image | image in images :: image.server == server)
    && PostOps.OnOwnCredential(images, user)
  }

  /** The table's constraints can never refuse what was prepared for an existing account. */
  lemma TidyIsAllowed(images: seq<Image>, server: string, user: Id, users: map<Id, User>)
    requires Tidy(images, server, user) && user in users
    ensures PostOps.ImagesAllowed(users, images)
  {
  }

  // ----- What comes of a request, given the server's answers -----

  datatype Poster = Poster(user: Id, token: bool)    // `token`: a connected account of this server

  /** What has been gathered, and how many requests the server has had. */
  datatype Gathered = Gathered(images: seq<Image>, created: seq<string>, requests: nat)

  function With(images: seq<Image>, image: Image): seq<Image> {
    if image.remoteId in IdsOf(images) then images else images + [image]
  }

  function ImageOf(base: string, f: File, user: Id): Image {
    Image(base, f.id, Some(user), f.name, RenditionOf(f))
  }

  ghost function Chosen(s: Server, o: Poster, ids: seq<string>, g: Gathered): Option<Gathered> {
    if ids == [] then Some(g)
    else if !o.token || !ValidId(ids[0]) then None
    else match FileIn(s.answers(g.requests), ids[0])
      case None => None
      case Some(f) =>
        Chosen(s, o, ids[1..], g.(images := With(g.images, ImageOf(s.base, f, o.user)), requests := g.requests + 1))
  }

  /** A link to an image anyone may see needs no credential. */
  ghost function Followed(s: Server, o: Poster, links: seq<string>, g: Gathered): Option<Gathered> {
    if links == [] then Some(g)
    else match s.parse(links[0])
      case None => None
      case Some(id) =>
        if id in IdsOf(g.images) then Followed(s, o, links[1..], g)
        else if !ValidId(id) then None
        else if Shows(s.answers(g.requests)) then
          var image := Image(s.base, id, None, "Image from imvault", Thumb);
          Followed(s, o, links[1..],
              g.(images := With(g.images, image), requests := g.requests + 1))
        else if !o.token then None
        else match FileIn(s.answers(g.requests + 1), id)
          case None => None
          case Some(f) =>
            Followed(s, o, links[1..],
              g.(images := With(g.images, ImageOf(s.base, f, o.user)), requests := g.requests + 2))
  }

  predicate Uploadable(u: Upload) {
    u.size <= MAX_IMAGE_BYTES && u.readable && u.looksRight
  }

  ghost function Uploaded(s: Server, o: Poster, uploads: seq<Upload>, g: Gathered): Option<Gathered> {
    if uploads == [] then Some(g)
    else if !o.token || !Uploadable(uploads[0]) || !Accepted(s.answers(g.requests)) then None
    else
      var f := s.answers(g.requests).files[0];
      Uploaded(s, o, uploads[1..],
        Gathered(With(g.images, ImageOf(s.base, f, o.user)), g.created + [f.id], g.requests + 1))
  }

  /** The images a request gets, or nothing. */
  ghost function Obtained(s: Server, o: Poster, wanted: Wanted, requests: nat): Option<Gathered> {
    var count := |wanted.ids| + |wanted.links| + |wanted.uploads|;
    var nothing := Gathered([], [], requests);
    if count == 0 then Some(nothing)
    else if !s.configured || count > MAX_IMAGES then None
    else match Chosen(s, o, wanted.ids, nothing)
      case None => None
      case Some(g) =>
        match Followed(s, o, wanted.links, g)
        case None => None
        case Some(h) => Uploaded(s, o, wanted.uploads, h)
  }

  // ----- What is gathered -----

  lemma WithIs(images: seq<Image>, image: Image, base: string, user: Id)
    requires Tidy(images, base, user) && image.server == base && image.credential in {None, Some(user)}
    ensures Tidy(With(images, image), base, user)
    ensures IdsOf(With(images, image)) == IdsOf(images) + {image.remoteId}
    ensures |With(images, image)| <= |images| + 1
  {
  }

  lemma {:induction false} ChosenAre(s: Server, o: Poster, ids: seq<string>, g: Gathered)
    requires Tidy(g.images, s.base, o.user) && Chosen(s, o, ids, g).Some?
    ensures var h := Chosen(s, o, ids, g).value;
      && Tidy(h.images, s.base, o.user) && h.created == g.created && |h.images| <= |g.images| + |ids|
      && IdsOf(h.images) == IdsOf(g.images) + Elements(ids)
    decreases ids
  {
    if ids != [] {
      var image := ImageOf(s.base, FileIn(s.answers(g.requests), ids[0]).value, o.user);
      WithIs(g.images, image, s.base, o.user);
      ChosenAre(s, o, ids[1..], g.(images := With(g.images, image), requests := g.requests + 1));
      assert ids == [ids[0]] + ids[1..];
    }
  }

  lemma {:induction false} FollowedAre(s: Server, o: Poster, links: seq<string>, g: Gathered)
    requires Tidy(g.images, s.base, o.user) && Followed(s, o, links, g).Some?
    ensures var h := Followed(s, o, links, g).value;
      && Tidy(h.images, s.base, o.user) && h.created == g.created && |h.images| <= |g.images| + |links|
      && IdsOf(h.images) == IdsOf(g.images) + Linked(s.parse, links)
    decreases links
  {
    if links != [] {
      var id := s.parse(links[0]).value;
      if id in IdsOf(g.images) {
        FollowedAre(s, o, links[1..], g);
      } else if Shows(s.answers(g.requests)) {
        var image := Image(s.base, id, None, "Image from imvault", Thumb);
        WithIs(g.images, image, s.base, o.user);
        FollowedAre(s, o, links[1..],
              g.(images := With(g.images, image), requests := g.requests + 1));
      } else {
        var image := ImageOf(s.base, FileIn(s.answers(g.requests + 1), id).value, o.user);
        WithIs(g.images, image, s.base, o.user);
        FollowedAre(s, o, links[1..],
              g.(images := With(g.images, image), requests := g.requests + 2));
      }
    }
  }

  lemma {:induction false} UploadedAre(s: Server, o: Poster, uploads: seq<Upload>, g: Gathered)
    requires Tidy(g.images, s.base, o.user) && Elements(g.created) <= IdsOf(g.images)
      && Uploaded(s, o, uploads, g).Some?
    ensures var h := Uploaded(s, o, uploads, g).value;
      && Tidy(h.images, s.base, o.user) && g.created <= h.created && |h.images| <= |g.images| + |uploads|
      && IdsOf(h.images) == IdsOf(g.images) + Elements(h.created)
    decreases uploads
  {
    if uploads != [] {
      var f := s.answers(g.requests).files[0];
      WithIs(g.images, ImageOf(s.base, f, o.user), s.base, o.user);
      var next := Gathered(With(g.images, ImageOf(s.base, f, o.user)), g.created + [f.id], g.requests + 1);
      UploadedAre(s, o, uploads[1..], next);
      assert f.id in next.created && next.created <= Uploaded(s, o, uploads, g).value.created;
    }
  }

  /** A request that gets its images gets at most four, distinct, on the member's own credential or
      none: exactly those chosen, those linked and those uploaded. */
  lemma ObtainedAre(s: Server, o: Poster, wanted: Wanted, requests: nat)
    requires Obtained(s, o, wanted, requests).Some?
    ensures var g := Obtained(s, o, wanted, requests).value;
      && |g.images| <= 4 && Tidy(g.images, s.base, o.user)
      && IdsOf(g.images) == Elements(wanted.ids) + Linked(s.parse, wanted.links) + Elements(g.created)
  {
    if |wanted.ids| + |wanted.links| + |wanted.uploads| > 0 {
      var nothing := Gathered([], [], requests);
      ChosenAre(s, o, wanted.ids, nothing);
      var g := Chosen(s, o, wanted.ids, nothing).value;
      FollowedAre(s, o, wanted.links, g);
      UploadedAre(s, o, wanted.uploads, Followed(s, o, wanted.links, g).value);
    }
  }

  // ----- The preparation itself -----

  /** A failed upload after some that worked. */
  lemma BalancedAfter(reported: seq<string>, deleted: seq<string>, created: seq<string>, reported': seq<string>,
          deleted': seq<string>)
    requires Balanced(reported + created, deleted, reported', deleted', [])
    ensures Balanced(reported, deleted, reported', deleted', created)
  {
    assert reported'[|reported|..] == created + reported'[|reported + created|..];
  }

  lemma BalancedAgain(reported: seq<string>, deleted: seq<string>, reported': seq<string>, deleted': seq<string>,
          created: seq<string>)
    requires Balanced(reported, deleted, reported', deleted', created)
    ensures Balanced(reported, deleted, reported', deleted' + created, [])
  {
    assert (deleted' + created)[|deleted|..] == deleted'[|deleted|..] + created;
  }

  class Preparation {
    const client: Client
    const poster: Poster
    var images: seq<Image>
    var created: seq<string>
    var seen: set<string>

    constructor (client: Client, poster: Poster)
      ensures Valid() && Got() == Gathered([], [], client.requests)
      ensures this.client == client && this.poster == poster
    {
      this.client, this.poster := client, poster;
      images, created, seen := [], [], {};
    }

    ghost predicate Valid()
      reads this
    {
      seen == IdsOf(images) && forall id | id in created :: ValidId(id)
    }

    ghost function Got(): Gathered
      reads this, client
    {
      Gathered(images, created, client.requests)
    }

    method Add(image: Image)
      requires Valid()
      modifies this`images, this`seen
      ensures Valid() && images == With(old(images), image)
    {
      if image.remoteId in seen {
        return;
      }
      seen := seen + {image.remoteId};
      images := images + [image];
    }

    method ChooseImages(ids: seq<string>) returns (ok: bool)
      requires Valid()
      modifies this`images, this`seen, client`requests
      ensures match Chosen(client.server, poster, ids, old(Got()))
        case None => !ok
        case Some(g) => ok && Got() == g
      ensures Valid()
    {
      for i := 0 to |ids|
        invariant Valid()
        invariant Chosen(client.server, poster, ids[i..], Got()) == Chosen(client.server, poster, ids, old(Got()))
      {
        assert ids[i..][1..] == ids[i + 1..];
        if !poster.token {
          return false;
        }
        var f := client.File(ids[i]);
        if f == None {
          return false;
        }
        Add(ImageOf(client.server.base, f.value, poster.user));
      }
      return true;
    }

    method FollowLinks(links: seq<string>) returns (ok: bool)
      requires Valid()
      modifies this`images, this`seen, client`requests
      ensures match Followed(client.server, poster, links, old(Got()))
        case None => !ok
        case Some(g) => ok && Got() == g
      ensures Valid()
    {
      for i := 0 to |links|
        invariant Valid()
        invariant Followed(client.server, poster, links[i..], Got())
          == Followed(client.server, poster, links, old(Got()))
      {
        assert links[i..][1..] == links[i + 1..];
        var id := client.server.parse(links[i]);
        if id == None {
          return false;
        }
        if id.value in seen {
          continue;
        }
        var public := client.IsPublic(id.value);
        if public {
          Add(Image(client.server.base, id.value, None, "Image from imvault", Thumb));
          continue;
        }
        if !poster.token {
          return false;
        }
        var f := client.File(id.value);
        if f == None {
          return false;
        }
        Add(ImageOf(client.server.base, f.value, poster.user));
      }
      return true;
    }

    /** Every file uploaded is noted in `created` as soon as the server names it. */
    method UploadImages(uploads: seq<Upload>) returns (ok: bool)
      requires Valid() && created == []
      modifies this, client
      ensures match Uploaded(client.server, poster, uploads, old(Got()))
        case None => !ok
        case Some(g) => ok && Got() == g
      ensures Valid()
      ensures Balanced(old(client.reported), old(client.deleted), client.reported, client.deleted, created)
      ensures ok ==> client.deleted == old(client.deleted) && client.reported == old(client.reported) + created
    {
      for i := 0 to |uploads|
        invariant Valid()
        invariant Uploaded(client.server, poster, uploads[i..], Got())
          == Uploaded(client.server, poster, uploads, old(Got()))
        invariant client.deleted == old(client.deleted) && client.reported == old(client.reported) + created
      {
        assert uploads[i..][1..] == uploads[i + 1..];
        if !poster.token || uploads[i].size > MAX_IMAGE_BYTES || !uploads[i].readable {
          return false;
        }
        var f := client.Upload(uploads[i].size, uploads[i].looksRight);
        if f == None {
          BalancedAfter(old(client.reported), old(client.deleted), created, client.reported, client.deleted);
          return false;
        }
        created := created + [f.value.id];
        Add(ImageOf(client.server.base, f.value, poster.user));
      }
      return true;
    }

    /** Gets all that is wanted, in the order of the form, or fails at the first thing it cannot get. */
    method Prepare(wanted: Wanted) returns (ok: bool)
      requires Valid() && images == [] && created == []
      modifies this, client
      ensures match Obtained(client.server, poster, wanted, old(client.requests))
        case None => !ok
        case Some(g) => ok && Got() == g
      ensures Valid()
      ensures Balanced(old(client.reported), old(client.deleted), client.reported, client.deleted, created)
      ensures ok ==> client.deleted == old(client.deleted) && client.reported == old(client.reported) + created
    {
      var count := |wanted.ids| + |wanted.links| + |wanted.uploads|;
      if count == 0 {
        return true;
      }
      if !client.server.configured || count > MAX_IMAGES {
        return false;
      }
      ok := ChooseImages(wanted.ids);
      if !ok {
        return;
      }
      ok := FollowLinks(wanted.links);
      if !ok {
        return;
      }
      ok := UploadImages(wanted.uploads);
    }

    /** Deletes what was uploaded, never what was chosen or linked. */
    method CleanUp()
      requires Valid()
      modifies client
      ensures client.deleted == old(client.deleted) + created && client.reported == old(client.reported)
    {
      for i := 0 to |created|
        invariant client.deleted == old(client.deleted) + created[..i] && client.reported == old(client.reported)
      {
        client.Delete(created[i]);
      }
      assert created[..|created|] == created;
    }

    /** The same, told over the whole request: every file reported as created is deleted again. */
    method GiveUp(ghost reported: seq<string>, ghost deleted: seq<string>)
      requires Valid() && Balanced(reported, deleted, client.reported, client.deleted, created)
      modifies client
      ensures Balanced(reported, deleted, client.reported, client.deleted, [])
    {
      BalancedAgain(reported, deleted, client.reported, client.deleted, created);
      CleanUp();
    }
  }
}
