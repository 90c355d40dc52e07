/** The client of the image server, whose answers are arbitrary, and what it asks the server to delete. */
module Imvault {
  import opened Schema

  const MAX_IMAGE_BYTES: nat := 8 * 1024 * 1024

  datatype File = File(id: string, name: string, kind: string, isPrivate: bool)

  predicate IsIdChar(c: char) {
    'a' <= c <= 'z' || 'A' <= c <= 'Z' || '0' <= c <= '9' || c == '_' || c == '-'
  }

  predicate ValidId(id: string) {
    1 <= |id| <= 64 && forall c | c in id :: IsIdChar(c)
  }

  predicate IsImage(f: File) {
    ValidId(f.id) && f.kind in {"image", "animated"}
  }

  function RenditionOf(f: File): Rendition {
    if f.kind == "image" then Preview else Thumb
  }

  /** One answer of the server: none that can be read, or a status with the files it names. */
  datatype Response = Unavailable | Response(status: nat, files: seq<File>, errors: bool)

  predicate Accepted(r: Response) {
    r.Response? && r.status == 201 && |r.files| == 1 && !r.errors && IsImage(r.files[0]) && r.files[0].isPrivate
  }

  /** The well-formed identifiers among the files of an answer to an upload. */
  function Reported(files: seq<File>): seq<string> {
    if files == [] then []
    else Reported(files[..|files| - 1]) + (if ValidId(files[|files| - 1].id) then [files[|files| - 1].id] else [])
  }

  /** Of the files the server said were created, those it was not asked to delete again are the ones in
      `kept`; and it was asked to delete no others. */
  ghost predicate Balanced(reported: seq<string>, deleted: seq<string>, reported': seq<string>,
          deleted': seq<string>, kept: seq<string>) {
    && reported <= reported' && deleted <= deleted'
    && multiset(reported'[|reported|..]) == multiset(deleted'[|deleted|..]) + multiset(kept)
  }

  lemma ReportedOne(files: seq<File>)
    requires |files| == 1 && ValidId(files[0].id)
    ensures Reported(files) == [files[0].id]
  {
    assert files[..0] == [];
  }

  /** An image server, if the site has one: what it is called, the identifier in an image link of its
      own, and what it answers, request by request. Its answers are arbitrary. */
  datatype Server = Server(configured: bool, base: string, parse: string -> Option<string>, answers: nat -> Response)

  /** The image an answer describes, if it is the one that was asked about. */
  function FileIn(r: Response, id: string): Option<File> {
    if r.Response? && r.status == 200 && |r.files| == 1 && r.files[0].id == id && IsImage(r.files[0])
    then Some(r.files[0])
    else None
  }

  predicate Shows(r: Response) {
    r.Response? && r.status == 200
  }

  class Client {
    const server: Server
    var requests: nat
    var deleted: seq<string>                     // every identifier the server was asked to delete
    ghost var reported: seq<string>              // every file the server said an upload had created

    constructor (server: Server)
      ensures this.server == server && requests == 0 && deleted == [] && reported == []
    {
      this.server := server;
      requests, deleted, reported := 0, [], [];
    }

    method Request() returns (r: Response)
      modifies this`requests
      ensures r == server.answers(old(requests)) && requests == old(requests) + 1
    {
      r := server.answers(requests);
      requests := requests + 1;
    }

    method File(id: string) returns (f: Option<File>)
      modifies this`requests
      ensures f == if ValidId(id) then FileIn(server.answers(old(requests)), id) else None
      ensures f.Some? ==>
        && server.answers(old(requests)) == Response(200, [f.value], server.answers(old(requests)).errors)
        && f.value.id == id && f.value.kind in {"image", "animated"}
      ensures requests == old(requests) + if ValidId(id) then 1 else 0
    {
      if !ValidId(id) {
        return None;
      }
      var r := Request();
      if r == Unavailable || r.status != 200 || |r.files| != 1 || r.files[0].id != id || !IsImage(r.files[0]) {
        return None;
      }
      return Some(r.files[0]);
    }

    /** Whether anyone at all may see the image. */
    method IsPublic(id: string) returns (public: bool)
      modifies this`requests
      ensures public <==> ValidId(id) && Shows(server.answers(old(requests)))
      ensures requests == old(requests) + if ValidId(id) then 1 else 0
    {
      if !ValidId(id) {
        return false;
      }
      var r := Request();
      return Shows(r);
    }

    /** Uploads one file; what a rejected answer names as created is deleted at once. */
    method Upload(data: nat, looksRight: bool) returns (f: Option<File>)
      modifies this
      ensures f.Some? <==> data <= MAX_IMAGE_BYTES && looksRight && Accepted(server.answers(old(requests)))
      ensures match f
        case Some(file) =>
          && server.answers(old(requests)) == Response(201, [file], false) && requests == old(requests) + 1
          && ValidId(file.id) && file.kind in {"image", "animated"} && file.isPrivate
          && reported == old(reported) + [file.id] && deleted == old(deleted)
        case None => Balanced(old(reported), old(deleted), reported, deleted, [])
    {
      if data > MAX_IMAGE_BYTES || !looksRight {
        return None;
      }
      var r := Request();
      if r == Unavailable {
        return None;
      }
      reported := reported + Reported(r.files);
      if !Accepted(r) {
        DeleteAll(r.files);
        return None;
      }
      ReportedOne(r.files);
      return Some(r.files[0]);
    }

    method DeleteAll(files: seq<File>)
      modifies this`requests, this`deleted
      ensures deleted == old(deleted) + Reported(files)
    {
      for i := 0 to |files|
        invariant deleted == old(deleted) + Reported(files[..i])
      {
        assert files[..i + 1][..i] == files[..i];
        Delete(files[i].id);
      }
      assert files[..|files|] == files;
    }

    method Delete(id: string)
      modifies this`requests, this`deleted
      ensures deleted == old(deleted) + if ValidId(id) then [id] else []
    {
      if ValidId(id) {
        deleted := deleted + [id];
        var r := Request();
      }
    }
  }

  // ----- Remembering whose an image is -----

  const TTL: int := 15 * 1_000_000_000       // nanoseconds
  const MAX_ENTRIES := 1024

  datatype Entry = Entry(file: File, expires: Time)

  /** The server's word, at some time, that a credential owns an image. */
  datatype Check = Check(token: string, id: string, at: Time, file: File)

  /** The bytes the cache's key is a digest of. */
  function KeyOf(token: string, id: string): string {
    token + [0 as char] + id
  }

  /** The cache after one more check; a full cache starts again. */
  function Noted(ownership: map<string, Entry>, c: Check): map<string, Entry> {
    (if |ownership| >= MAX_ENTRIES then map[] else ownership)[KeyOf(c.token, c.id) := Entry(c.file, c.at + TTL)]
  }

  /** The cache after some checks have been remembered, one after the other. */
  function Remembered(ownership: map<string, Entry>, checks: seq<Check>): map<string, Entry>
    decreases |checks|
  {
    if checks == [] then ownership else Remembered(Noted(ownership, checks[0]), checks[1..])
  }

  /** A credential comes from a form that admits printable characters only, so it holds no NUL. An
      identifier may be anything a request carries. */
  predicate IsCredential(token: string) {
    0 as char !in token
  }

  /** What a check that succeeded says: with a member's credential, the image that was asked about. */
  predicate Genuine(c: Check) {
    IsCredential(c.token) && c.file.id == c.id && IsImage(c.file)
  }

  lemma FirstNul(token: string, id: string)
    requires IsCredential(token)
    ensures KeyOf(token, id)[|token|] == 0 as char
    ensures forall i :: 0 <= i < |token| ==> KeyOf(token, id)[i] != 0 as char
  {
    forall i | 0 <= i < |token| ensures KeyOf(token, id)[i] in token {
    }
  }

  /** A key says exactly which credential and identifier it is for, because credentials hold no NUL. */
  lemma KeyIsExact(token: string, id: string, token': string, id': string)
    requires IsCredential(token) && IsCredential(token') && KeyOf(token, id) == KeyOf(token', id')
    ensures token == token' && id == id'
  {
    FirstNul(token, id);
    FirstNul(token', id');
    var k := KeyOf(token, id);
    assert token == k[..|token|] && id == k[|token| + 1..];
    assert token' == k[..|token'|] && id' == k[|token'| + 1..];
  }

  class OwnershipCache {
    var ownership: map<string, Entry>
    ghost var checks: set<Check>      // every check that succeeded

    ghost predicate Remembers(k: string, c: Check)
      reads this
    {
      && c in checks && Genuine(c)
      && k in ownership && k == KeyOf(c.token, c.id) && ownership[k] == Entry(c.file, c.at + TTL)
    }

    ghost predicate Valid()
      reads this
    {
      |ownership| <= 1024 && forall k :: k in ownership ==> exists c :: Remembers(k, c)
    }

    /** Some check with this very credential gave this image less than fifteen seconds ago. */
    ghost predicate Vouched(token: string, id: string, file: File, now: Time)
      reads this
    {
      exists c :: c in checks && Genuine(c) && c == Check(token, id, c.at, file) && now < c.at + 15 * 1_000_000_000
    }

    constructor ()
      ensures Valid() && checks == {}
    {
      ownership, checks := map[], {};
    }

    /** Nobody is given an image but on a check of it, with the same credential, that succeeded less than
        fifteen seconds ago, whatever identifier they ask for; none at all for a malformed one. `now`
        and `later` are the clock before and after asking the server; the lock is free in between, and
        `meanwhile` is what other callers remember then. */
    method CachedFile(client: Client, token: string, id: string, now: Time, later: Time, meanwhile: seq<Check>)
      returns (f: Option<File>)
      requires Valid() && now <= later && IsCredential(token) && forall c | c in meanwhile :: Genuine(c)
      modifies this, client`requests
      ensures Valid() && old(checks) <= checks
      ensures f.Some? ==> ValidId(id) && Vouched(token, id, f.value, now)
      ensures var k := KeyOf(token, id);
        if k in old(ownership) && now < old(ownership)[k].expires then
          && f == Some(old(ownership)[k].file) && unchanged(this) && client.requests == old(client.requests)
        else
          && f == (if ValidId(id) then FileIn(client.server.answers(old(client.requests)), id) else None)
          && var news := if f.Some? then meanwhile + [Check(token, id, later, f.value)] else meanwhile;
             ownership == Remembered(old(ownership), news) && checks == old(checks) + set c | c in news
    {
      f := Lookup(token, id, now);
      if f.Some? {
        return;
      }
      f := client.File(id);
      if f == None {
        RememberAll(meanwhile);
        return;
      }
      var check := Check(token, id, later, f.value);
      assert (meanwhile + [check])[|meanwhile|] == check;
      RememberAll(meanwhile + [check]);
      assert check in checks;
    }

    method Lookup(token: string, id: string, now: Time) returns (f: Option<File>)
      requires Valid() && IsCredential(token)
      ensures var k := KeyOf(token, id);
        f == if k in ownership && now < ownership[k].expires then Some(ownership[k].file) else None
      ensures f.Some? ==> ValidId(id) && Vouched(token, id, f.value, now)
    {
      var k := KeyOf(token, id);
      if k !in ownership || ownership[k].expires <= now {
        return None;
      }
      ghost var c :| Remembers(k, c);
      KeyIsExact(token, id, c.token, c.id);
      assert c == Check(token, id, c.at, ownership[k].file);
      return Some(ownership[k].file);
    }

    method RememberAll(meanwhile: seq<Check>)
      requires Valid() && forall c | c in meanwhile :: Genuine(c)
      modifies this
      ensures Valid() && checks == old(checks) + (set c | c in meanwhile)
      ensures ownership == Remembered(old(ownership), meanwhile)
      decreases |meanwhile|
    {
      if meanwhile != [] {
        assert meanwhile == [meanwhile[0]] + meanwhile[1..];
        Remember(meanwhile[0]);
        RememberAll(meanwhile[1..]);
      }
    }

    method Remember(check: Check)
      requires Valid() && Genuine(check)
      modifies this
      ensures Valid() && checks == old(checks) + {check}
      ensures ownership == Noted(old(ownership), check)
    {
      ghost var before := ownership;
      if |ownership| >= MAX_ENTRIES {
        ownership := map[];
      }
      var k := KeyOf(check.token, check.id);
      checks := checks + {check};
      ownership := ownership[k := Entry(check.file, check.at + TTL)];
      forall other | other in ownership ensures exists c :: Remembers(other, c) {
        if other == k {
          assert Remembers(k, check);
        } else {
          ghost var c :| c in old(checks) && other == KeyOf(c.token, c.id) && Genuine(c)
                         && before[other] == Entry(c.file, c.at + TTL);
          assert Remembers(other, c);
        }
      }
    }
  }
}
