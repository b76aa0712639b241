/** The media store of the media package as values: the records, the tables with their AUTOINCREMENT
    counters, the uniqueness constraints of the schema, the download log, and one function per
    statement or transaction step that gives the store after it and the error it reports. */
module Media {

  import opened Wrappers
  import opened Decimal
  import UrlExtension
  import RequestUri

  /** A point in time; `time.Time` values are only copied, never computed with. */
  type Time = int

  datatype Post = Post(
    id: nat, status: string, sfw: bool, source: string, kind: string, releasedAt: Time,
    category: string, externalId: string, externalUrl: string, sourceUrl: string,
    sourceCategory: string, likes: int, summary: string)

  datatype Photo = Photo(id: nat, postId: nat, caption: string, externalUrl: string, sfw: bool)

  datatype Video = Video(id: nat, postId: nat, externalUrl: string, thumbnailUrl: string)

  datatype Link = Link(id: nat, postId: nat, url: string)

  datatype Text = Text(id: nat, postId: nat, title: string, body: string)

  datatype Tag = Tag(id: nat, name: string)

  /** A row of `posts_tags`, whose primary key is the pair itself. */
  datatype PostTag = PostTag(postId: nat, tagId: nat)

  datatype Subscription = Subscription(
    id: nat, blogName: string, source: string, url: string, description: string, title: string)

  /** One file to fetch: the remote URL and the local path it is written to. */
  datatype DownloadTask = DownloadTask(url: string, localPath: string)

  datatype Table = Posts | Photos | Videos | Texts | Links | Tags | PostsTags | Subscriptions

  datatype Error =
    | UniqueViolation(columns: string)
    | StoreFailure(table: Table)
    | NoRows
    | InvalidUrl(url: string, problem: RequestUri.Problem)
    | DownloadFailed(task: DownloadTask)

  /** What the store cannot decide by itself: the media folder, the tables whose statements fail
      (a broken connection, a missing table) and the downloads that fail. */
  datatype Env = Env(mediaFolder: string, unavailable: set<Table>, failingDownloads: set<DownloadTask>)

  /** The whole store. Each `last…Id` is the table's AUTOINCREMENT counter: the greatest id ever
      handed out, so deleting rows never lowers it. `downloads` lists every download started, in
      order. It logs attempts, not files: a download that fails in the GET or the copy leaves an
      empty or partial file behind, one that fails in `os.Create` leaves none. */
  datatype Db = Db(
    posts: seq<Post>, photos: seq<Photo>, videos: seq<Video>, texts: seq<Text>, links: seq<Link>,
    tags: seq<Tag>, postsTags: seq<PostTag>, subscriptions: seq<Subscription>,
    lastPostId: nat, lastPhotoId: nat, lastVideoId: nat, lastTextId: nat, lastLinkId: nat,
    lastTagId: nat, lastSubscriptionId: nat,
    downloads: seq<DownloadTask>)

  /** The store right after the schema is created. */
  function EmptyDb(): (db: Db)
    ensures Valid(db)
  {
    Db([], [], [], [], [], [], [], [], 0, 0, 0, 0, 0, 0, 0, [])
  }

  /** A statement's outcome: the store after it, the record as the caller's pointer holds it
      afterwards (with the generated id written back only on success) and the error, if any. */
  datatype Step<T> = Step(db: Db, row: T, err: Option<Error>)

  /** The outcome of a statement that hands back no record. */
  datatype Effect = Effect(db: Db, err: Option<Error>)

  // ---------------------------------------------------------------------------------------------
  // The store's invariant

  function PostId(p: Post): nat { p.id }
  function PhotoId(p: Photo): nat { p.id }
  function VideoId(v: Video): nat { v.id }
  function TextId(t: Text): nat { t.id }
  function LinkId(l: Link): nat { l.id }
  function TagId(t: Tag): nat { t.id }
  function SubscriptionId(s: Subscription): nat { s.id }
  function ExternalIdOf(p: Post): string { p.externalId }
  function NameOf(t: Tag): string { t.name }
  function PairOf(pt: PostTag): PostTag { pt }

  /** Ids are positive, at most the counter, and ascend in table order. */
  predicate Numbered<T>(rows: seq<T>, id: T -> nat, last: nat) {
    && (forall i :: 0 <= i < |rows| ==> 0 < id(rows[i]) <= last)
    && (forall i, j :: 0 <= i < j < |rows| ==> id(rows[i]) < id(rows[j]))
  }

  /** No two rows share a key. */
  predicate Unique<T, K(==)>(rows: seq<T>, key: T -> K) {
    forall i, j :: 0 <= i < j < |rows| ==> key(rows[i]) != key(rows[j])
  }

  predicate ExternalIdStored(db: Db, externalId: string) {
    exists i :: 0 <= i < |db.posts| && db.posts[i].externalId == externalId
  }

  predicate TagNameStored(db: Db, name: string) {
    exists i :: 0 <= i < |db.tags| && db.tags[i].name == name
  }

  predicate TagIdStored(db: Db, id: nat) {
    exists i :: 0 <= i < |db.tags| && db.tags[i].id == id
  }

  /** The constraints of the schema (`external_id UNIQUE`, `name UNIQUE`, the primary key of
      `posts_tags`) and what the counters guarantee, plus: every pair names a stored tag. */
  ghost predicate Valid(db: Db) {
    && Numbered(db.posts, PostId, db.lastPostId)
    && Numbered(db.photos, PhotoId, db.lastPhotoId)
    && Numbered(db.videos, VideoId, db.lastVideoId)
    && Numbered(db.texts, TextId, db.lastTextId)
    && Numbered(db.links, LinkId, db.lastLinkId)
    && Numbered(db.tags, TagId, db.lastTagId)
    && Numbered(db.subscriptions, SubscriptionId, db.lastSubscriptionId)
    && Unique(db.posts, ExternalIdOf)
    && Unique(db.tags, NameOf)
    && Unique(db.postsTags, PairOf)
    && (forall i :: 0 <= i < |db.postsTags| ==> TagIdStored(db, db.postsTags[i].tagId))
  }

  lemma NumberedAppend<T>(rows: seq<T>, id: T -> nat, last: nat, r: T)
    requires Numbered(rows, id, last) && id(r) == last + 1
    ensures Numbered(rows + [r], id, last + 1)
  {
    assert forall i :: 0 <= i < |rows| ==> (rows + [r])[i] == rows[i];
  }

  lemma UniqueAppend<T, K>(rows: seq<T>, key: T -> K, r: T)
    requires Unique(rows, key)
    requires forall i :: 0 <= i < |rows| ==> key(rows[i]) != key(r)
    ensures Unique(rows + [r], key)
  {
    assert forall i :: 0 <= i < |rows| ==> (rows + [r])[i] == rows[i];
  }

  // ---------------------------------------------------------------------------------------------
  // Posts (media/posts.go)

  /** `PostExistsWithExternalID`: the count query's error is dropped, so a failing table reads as
      "no such post". */
  function PostExists(env: Env, db: Db, externalId: string): (r: bool)
    ensures r <==> Posts !in env.unavailable && ExternalIdStored(db, externalId)
  {
    Posts !in env.unavailable && exists i :: 0 <= i < |db.posts| && db.posts[i].externalId == externalId
  }

  /** `AddPost`: the insert fails on a taken external id and leaves the table alone; otherwise it
      appends the post under the next id and writes that id back. */
  function InsertPost(env: Env, db: Db, p: Post): (r: Step<Post>)
    ensures r.err.None? <==> Posts !in env.unavailable && !ExternalIdStored(db, p.externalId)
    ensures r.err.None? ==>
      && r.row == p.(id := db.lastPostId + 1) && r.row.id > 0
      && r.db == db.(posts := db.posts + [r.row], lastPostId := r.row.id)
    ensures r.err.Some? ==> r.db == db && r.row == p
    ensures Posts !in env.unavailable && ExternalIdStored(db, p.externalId) ==>
      r.err == Some(UniqueViolation("posts.external_id"))
    ensures Valid(db) ==> Valid(r.db)
  {
    if Posts in env.unavailable then Step(db, p, Some(StoreFailure(Posts)))
    else if ExternalIdStored(db, p.externalId) then Step(db, p, Some(UniqueViolation("posts.external_id")))
    else
      var row := p.(id := db.lastPostId + 1);
      var db' := db.(posts := db.posts + [row], lastPostId := row.id);
      assert Valid(db) ==> Valid(db') by {
        if Valid(db) {
          NumberedAppend(db.posts, PostId, db.lastPostId, row);
          UniqueAppend(db.posts, ExternalIdOf, row);
        }
      }
      Step(db', row, None)
  }

  // ---------------------------------------------------------------------------------------------
  // Links and texts (media/links.go, media/texts.go)

  /** `AddLink`: nothing constrains a link, so only a failing table refuses it. */
  function InsertLink(env: Env, db: Db, l: Link): (r: Step<Link>)
    ensures r.err.None? <==> Links !in env.unavailable
    ensures r.err.None? ==>
      && r.row == l.(id := db.lastLinkId + 1) && r.row.id > 0
      && r.db == db.(links := db.links + [r.row], lastLinkId := r.row.id)
    ensures r.err.Some? ==> r.db == db && r.row == l
    ensures Valid(db) ==> Valid(r.db)
  {
    if Links in env.unavailable then Step(db, l, Some(StoreFailure(Links)))
    else
      var row := l.(id := db.lastLinkId + 1);
      var db' := db.(links := db.links + [row], lastLinkId := row.id);
      assert Valid(db) ==> Valid(db') by {
        if Valid(db) {
          NumberedAppend(db.links, LinkId, db.lastLinkId, row);
        }
      }
      Step(db', row, None)
  }

  /** `AddText`: like `AddLink`, on the texts table. */
  function InsertText(env: Env, db: Db, t: Text): (r: Step<Text>)
    ensures r.err.None? <==> Texts !in env.unavailable
    ensures r.err.None? ==>
      && r.row == t.(id := db.lastTextId + 1) && r.row.id > 0
      && r.db == db.(texts := db.texts + [r.row], lastTextId := r.row.id)
    ensures r.err.Some? ==> r.db == db && r.row == t
    ensures Valid(db) ==> Valid(r.db)
  {
    if Texts in env.unavailable then Step(db, t, Some(StoreFailure(Texts)))
    else
      var row := t.(id := db.lastTextId + 1);
      var db' := db.(texts := db.texts + [row], lastTextId := row.id);
      assert Valid(db) ==> Valid(db') by {
        if Valid(db) {
          NumberedAppend(db.texts, TextId, db.lastTextId, row);
        }
      }
      Step(db', row, None)
  }

  // ---------------------------------------------------------------------------------------------
  // Tags (media/tags.go)

  /** The first stored tag with the name, as `SELECT … where name = ?` returns it. */
  function FirstTagNamed(tags: seq<Tag>, name: string): (r: Option<Tag>)
    ensures r.Some? <==> exists i :: 0 <= i < |tags| && tags[i].name == name
    ensures r.Some? ==> r.value in tags && r.value.name == name
  {
    if tags == [] then None
    else if tags[0].name == name then Some(tags[0])
    else FirstTagNamed(tags[1..], name)
  }

  lemma FirstTagNamedAppend(tags: seq<Tag>, t: Tag, name: string)
    requires t.name == name
    requires forall i :: 0 <= i < |tags| ==> tags[i].name != name
    ensures FirstTagNamed(tags + [t], name) == Some(t)
  {
    if tags != [] {
      assert (tags + [t])[1..] == tags[1..] + [t];
      FirstTagNamedAppend(tags[1..], t, name);
    }
  }

  /** `findTag`: a failing table and a missing name are both errors to the caller. */
  function FindTag(env: Env, db: Db, name: string): (r: Option<Tag>)
    ensures r.Some? <==> Tags !in env.unavailable && TagNameStored(db, name)
    ensures r.Some? ==> r.value in db.tags && r.value.name == name
  {
    if Tags in env.unavailable then None else FirstTagNamed(db.tags, name)
  }

  /** `AddTag`: the insert fails on a taken name and leaves the table alone. */
  function InsertTag(env: Env, db: Db, t: Tag): (r: Step<Tag>)
    ensures r.err.None? <==> Tags !in env.unavailable && !TagNameStored(db, t.name)
    ensures r.err.None? ==>
      && r.row == t.(id := db.lastTagId + 1) && r.row.id > 0
      && r.db == db.(tags := db.tags + [r.row], lastTagId := r.row.id)
    ensures r.err.Some? ==> r.db == db && r.row == t
    ensures Tags !in env.unavailable && TagNameStored(db, t.name) ==> r.err == Some(UniqueViolation("tags.name"))
    ensures Valid(db) ==> Valid(r.db)
  {
    if Tags in env.unavailable then Step(db, t, Some(StoreFailure(Tags)))
    else if TagNameStored(db, t.name) then Step(db, t, Some(UniqueViolation("tags.name")))
    else
      var row := t.(id := db.lastTagId + 1);
      var db' := db.(tags := db.tags + [row], lastTagId := row.id);
      assert Valid(db) ==> Valid(db') by {
        if Valid(db) {
          NumberedAppend(db.tags, TagId, db.lastTagId, row);
          UniqueAppend(db.tags, NameOf, row);
          forall i | 0 <= i < |db'.postsTags| ensures TagIdStored(db', db'.postsTags[i].tagId) {
            var k :| 0 <= k < |db.tags| && db.tags[k].id == db.postsTags[i].tagId;
            assert db'.tags[k] == db.tags[k];
          }
        }
      }
      Step(db', row, None)
  }

  /** The `posts_tags` insert: its primary key refuses a pair that is already there. */
  function InsertPostTag(env: Env, db: Db, postId: nat, tagId: nat): (r: Effect)
    ensures r.err.None? <==> PostsTags !in env.unavailable && PostTag(postId, tagId) !in db.postsTags
    ensures r.err.None? ==> r.db == db.(postsTags := db.postsTags + [PostTag(postId, tagId)])
    ensures r.err.Some? ==> r.db == db
    ensures PostsTags !in env.unavailable && PostTag(postId, tagId) in db.postsTags ==>
      r.err == Some(UniqueViolation("posts_tags.post_id, posts_tags.tag_id"))
    ensures Valid(db) && TagIdStored(db, tagId) ==> Valid(r.db)
  {
    var pair := PostTag(postId, tagId);
    if PostsTags in env.unavailable then Effect(db, Some(StoreFailure(PostsTags)))
    else if pair in db.postsTags then Effect(db, Some(UniqueViolation("posts_tags.post_id, posts_tags.tag_id")))
    else
      var db' := db.(postsTags := db.postsTags + [pair]);
      assert Valid(db) && TagIdStored(db, tagId) ==> Valid(db') by {
        if Valid(db) && TagIdStored(db, tagId) {
          UniqueAppend(db.postsTags, PairOf, pair);
          assert forall i :: 0 <= i < |db.postsTags| ==> db'.postsTags[i] == db.postsTags[i];
        }
      }
      Effect(db', None)
  }

  /** `AddTagToPost`: find the tag by name or create it, then pair it with the post. Only the tags
      and `posts_tags` tables can change. */
  function TagPost(env: Env, db: Db, postId: nat, name: string): (r: Effect)
    ensures r.db == db.(tags := r.db.tags, lastTagId := r.db.lastTagId, postsTags := r.db.postsTags)
    ensures TagNameStored(db, name) ==> r.db.tags == db.tags && r.db.lastTagId == db.lastTagId
    ensures r.db.tags == db.tags || (!TagNameStored(db, name) && r.db.tags == db.tags + [Tag(db.lastTagId + 1, name)])
    ensures Tags !in env.unavailable && TagNameStored(db, name) ==>
      r == InsertPostTag(env, db, postId, FindTag(env, db, name).value.id)
    ensures Tags !in env.unavailable && !TagNameStored(db, name) ==>
      var created := Tag(db.lastTagId + 1, name);
      r == InsertPostTag(env, db.(tags := db.tags + [created], lastTagId := created.id), postId, created.id)
    ensures r.err.None? ==> exists t :: t in r.db.tags && t.name == name && PostTag(postId, t.id) in r.db.postsTags
    ensures r.err.None? ==> |r.db.postsTags| == |db.postsTags| + 1
    ensures r.err.Some? ==> r.db.postsTags == db.postsTags
    ensures Valid(db) ==> Valid(r.db)
  {
    match FindTag(env, db, name)
    case Some(t) =>
      assert Valid(db) ==> TagIdStored(db, t.id);
      var r := InsertPostTag(env, db, postId, t.id);
      assert r.err.None? ==> t in r.db.tags && PostTag(postId, t.id) in r.db.postsTags;
      r
    case None =>
      var r := CreateAndPair(env, db, postId, name);
      assert r.err.None? ==> Tag(db.lastTagId + 1, name) in r.db.tags && PostTag(postId, db.lastTagId + 1) in r.db.postsTags;
      r
  }

  /** The miss of `findTag` in `AddTagToPost`: create the tag, find it again, pair it. */
  function CreateAndPair(env: Env, db: Db, postId: nat, name: string): (r: Effect)
    requires Tags in env.unavailable || !TagNameStored(db, name)
    ensures Tags in env.unavailable ==> r == Effect(db, Some(StoreFailure(Tags)))
    ensures Tags !in env.unavailable ==>
      var created := Tag(db.lastTagId + 1, name);
      r == InsertPostTag(env, db.(tags := db.tags + [created], lastTagId := created.id), postId, created.id)
    ensures Valid(db) ==> Valid(r.db)
  {
    var ins := InsertTag(env, db, Tag(0, name));
    if ins.err.Some? then Effect(ins.db, ins.err)
    else
      FirstTagNamedAppend(db.tags, ins.row, name);
      var found := FindTag(env, ins.db, name);
      if found.None? then
        assert false;
        Effect(ins.db, Some(NoRows))
      else
        assert Valid(ins.db) ==> TagIdStored(ins.db, found.value.id) by {
          assert ins.db.tags[|db.tags|] == found.value;
        }
        InsertPostTag(env, ins.db, postId, found.value.id)
  }

  // ---------------------------------------------------------------------------------------------
  // Subscriptions (media/subscriptions.go)

  /** `AddSubscription`: no constraint, so only a failing table refuses it. */
  function InsertSubscription(env: Env, db: Db, s: Subscription): (r: Step<Subscription>)
    ensures r.err.None? <==> Subscriptions !in env.unavailable
    ensures r.err.None? ==>
      && r.row == s.(id := db.lastSubscriptionId + 1) && r.row.id > 0
      && r.db == db.(subscriptions := db.subscriptions + [r.row], lastSubscriptionId := r.row.id)
    ensures r.err.Some? ==> r.db == db && r.row == s
    ensures Valid(db) ==> Valid(r.db)
  {
    if Subscriptions in env.unavailable then Step(db, s, Some(StoreFailure(Subscriptions)))
    else
      var row := s.(id := db.lastSubscriptionId + 1);
      var db' := db.(subscriptions := db.subscriptions + [row], lastSubscriptionId := row.id);
      assert Valid(db) ==> Valid(db') by {
        if Valid(db) {
          NumberedAppend(db.subscriptions, SubscriptionId, db.lastSubscriptionId, row);
        }
      }
      Step(db', row, None)
  }

  /** What `ListSubscriptions` returns: the rows in insertion order, or an error and no rows. */
  datatype Listing = Listing(rows: seq<Subscription>, err: Option<Error>)

  function ListSubscriptions(env: Env, db: Db): (r: Listing)
    ensures r.err.None? <==> Subscriptions !in env.unavailable
    ensures r.err.None? ==> r.rows == db.subscriptions
    ensures r.err.Some? ==> r.rows == []
  {
    if Subscriptions in env.unavailable then Listing([], Some(StoreFailure(Subscriptions)))
    else Listing(db.subscriptions, None)
  }

  /** `RemoveAllSubscriptions`: every row goes, the counter stays. */
  function RemoveAllSubscriptions(env: Env, db: Db): (r: Effect)
    ensures r.err.None? <==> Subscriptions !in env.unavailable
    ensures r.err.None? ==> r.db == db.(subscriptions := [])
    ensures r.err.Some? ==> r.db == db
    ensures Valid(db) ==> Valid(r.db)
  {
    if Subscriptions in env.unavailable then Effect(db, Some(StoreFailure(Subscriptions)))
    else Effect(db.(subscriptions := []), None)
  }

  // ---------------------------------------------------------------------------------------------
  // File names and paths (media/photos.go, media/videos.go)

  /** `filepath.Join` of the media folder and a file name, without its path cleaning: the name
      always ends the path, after the folder and a separator when there is a folder. */
  function Join(dir: string, name: string): (r: string)
    ensures |name| <= |r| && r[|r| - |name|..] == name
    ensures dir != "" ==> |r| == |dir| + 1 + |name| && r[..|dir|] == dir && r[|dir|] == '/'
  {
    if dir == "" then name else dir + "/" + name
  }

  /** `Photo.FileName`: "photo_", the id in decimal, then the URL's extension. */
  function PhotoFileName(p: Photo): (r: string)
    ensures "photo_" <= r
  {
    "photo_" + NatToString(p.id) + UrlExtension.Extension(p.externalUrl)
  }

  /** `Video.FileName`: "video_", the id in decimal, then the extension of the video URL. */
  function VideoFileName(v: Video): (r: string)
    ensures "video_" <= r
  {
    "video_" + NatToString(v.id) + UrlExtension.Extension(v.externalUrl)
  }

  /** `Video.ThumbnailFileName`: "video_", the id, "_thumbnail", then the thumbnail URL's extension. */
  function ThumbnailFileName(v: Video): (r: string)
    ensures "video_" <= r
  {
    "video_" + NatToString(v.id) + "_thumbnail" + UrlExtension.Extension(v.thumbnailUrl)
  }

  /** Every media file name ends in the extension of its URL, a thumbnail's after "_thumbnail". */
  lemma FileNamesEndInExtension(p: Photo, v: Video)
    ensures var n, e := PhotoFileName(p), UrlExtension.Extension(p.externalUrl);
      |e| < |n| && n[|n| - |e|..] == e
    ensures var n, e := VideoFileName(v), UrlExtension.Extension(v.externalUrl);
      |e| < |n| && n[|n| - |e|..] == e
    ensures var n, e := ThumbnailFileName(v), UrlExtension.Extension(v.thumbnailUrl);
      |e| + 10 < |n| && n[|n| - |e| - 10..] == "_thumbnail" + e
  {
    EndsWith("photo_" + NatToString(p.id), UrlExtension.Extension(p.externalUrl));
    EndsWith("video_" + NatToString(v.id), UrlExtension.Extension(v.externalUrl));
    EndsWith("video_" + NatToString(v.id), "_thumbnail" + UrlExtension.Extension(v.thumbnailUrl));
    assert ThumbnailFileName(v)
        == ("video_" + NatToString(v.id)) + ("_thumbnail" + UrlExtension.Extension(v.thumbnailUrl));
  }

  lemma EndsWith(a: string, b: string)
    requires a != []
    ensures |b| < |a + b| && (a + b)[|a + b| - |b|..] == b
  {
  }

  /** `GetPhotoPath`: the photo's file name in the media folder. */
  function PhotoPath(env: Env, p: Photo): (r: string)
    ensures var name := PhotoFileName(p); |name| <= |r| && r[|r| - |name|..] == name
  {
    Join(env.mediaFolder, PhotoFileName(p))
  }

  /** `GetVideoPath`: the video's file name in the media folder. */
  function VideoPath(env: Env, v: Video): (r: string)
    ensures var name := VideoFileName(v); |name| <= |r| && r[|r| - |name|..] == name
  {
    Join(env.mediaFolder, VideoFileName(v))
  }

  /** `GetVideoThumbnailPath`: the thumbnail's file name in the media folder. */
  function ThumbnailPath(env: Env, v: Video): (r: string)
    ensures var name := ThumbnailFileName(v); |name| <= |r| && r[|r| - |name|..] == name
  {
    Join(env.mediaFolder, ThumbnailFileName(v))
  }

  // ---------------------------------------------------------------------------------------------
  // The attachment transaction (media/utils.go, media/photos.go, media/videos.go)

  /** Index k holds the first URL `url.ParseRequestURI` refuses. */
  predicate FirstRefused(urls: seq<string>, k: int) {
    0 <= k < |urls| && !RequestUri.Valid(urls[k]) && forall j :: 0 <= j < k ==> RequestUri.Valid(urls[j])
  }

  lemma FirstRefusedTail(urls: seq<string>, k: int)
    requires urls != [] && RequestUri.Valid(urls[0]) && FirstRefused(urls[1..], k)
    ensures FirstRefused(urls, k + 1) && urls[k + 1] == urls[1..][k]
  {
    forall j | 0 <= j < k + 1 ensures RequestUri.Valid(urls[j]) {
      if j > 0 {
        assert urls[j] == urls[1..][j - 1];
      }
    }
  }

  lemma AllAcceptedTail(urls: seq<string>)
    requires urls != [] && RequestUri.Valid(urls[0])
    ensures (forall k :: 0 <= k < |urls| ==> RequestUri.Valid(urls[k]))
        <==> (forall k :: 0 <= k < |urls| - 1 ==> RequestUri.Valid(urls[1..][k]))
  {
    if forall k :: 0 <= k < |urls| - 1 ==> RequestUri.Valid(urls[1..][k]) {
      forall k | 0 <= k < |urls| ensures RequestUri.Valid(urls[k]) {
        if k > 0 {
          assert urls[k] == urls[1..][k - 1];
        }
      }
    }
  }

  /** The first URL `url.ParseRequestURI` refuses, as the error `validateUrls` records. */
  function FirstInvalidUrl(urls: seq<string>): (r: Option<Error>)
    ensures r.None? <==> forall k :: 0 <= k < |urls| ==> RequestUri.Valid(urls[k])
    ensures r.Some? ==> exists k :: (FirstRefused(urls, k) &&
              r.value == InvalidUrl(urls[k], RequestUri.ParseRequestUri(urls[k]).value))
  {
    if urls == [] then None
    else match RequestUri.ParseRequestUri(urls[0])
      case Some(problem) =>
        assert FirstRefused(urls, 0);
        Some(InvalidUrl(urls[0], problem))
      case None =>
        var r := FirstInvalidUrl(urls[1..]);
        AllAcceptedTail(urls);
        assert r.Some? ==> exists k :: (FirstRefused(urls, k) &&
                 r.value == InvalidUrl(urls[k], RequestUri.ParseRequestUri(urls[k]).value)) by {
          if r.Some? {
            var k :| FirstRefused(urls[1..], k) &&
              r.value == InvalidUrl(urls[1..][k], RequestUri.ParseRequestUri(urls[1..][k]).value);
            FirstRefusedTail(urls, k);
          }
        }
        r
  }

  /** `validateUrls` on a transaction whose error is `err`: the new error. */
  function ValidateUrls(err: Option<Error>, urls: seq<string>): (r: Option<Error>)
    ensures err.Some? ==> r == err
    ensures err.None? ==> r == FirstInvalidUrl(urls)
  {
    if err.Some? then err else FirstInvalidUrl(urls)
  }

  /** The record `save` inserts: the closure each of `AddPhoto` and `AddVideo` hands the
      transaction, told apart by which record it captures. */
  datatype Attachment = PhotoRow(photo: Photo) | VideoRow(video: Video)

  function InsertPhoto(env: Env, db: Db, p: Photo): (r: Step<Photo>)
    ensures r.err.None? <==> Photos !in env.unavailable
    ensures r.err.None? ==>
      && r.row == p.(id := db.lastPhotoId + 1) && r.row.id > 0
      && r.db == db.(photos := db.photos + [r.row], lastPhotoId := r.row.id)
    ensures r.err.Some? ==> r.db == db && r.row == p
    ensures Valid(db) ==> Valid(r.db)
  {
    if Photos in env.unavailable then Step(db, p, Some(StoreFailure(Photos)))
    else
      var row := p.(id := db.lastPhotoId + 1);
      var db' := db.(photos := db.photos + [row], lastPhotoId := row.id);
      assert Valid(db) ==> Valid(db') by {
        if Valid(db) {
          NumberedAppend(db.photos, PhotoId, db.lastPhotoId, row);
        }
      }
      Step(db', row, None)
  }

  function InsertVideo(env: Env, db: Db, v: Video): (r: Step<Video>)
    ensures r.err.None? <==> Videos !in env.unavailable
    ensures r.err.None? ==>
      && r.row == v.(id := db.lastVideoId + 1) && r.row.id > 0
      && r.db == db.(videos := db.videos + [r.row], lastVideoId := r.row.id)
    ensures r.err.Some? ==> r.db == db && r.row == v
    ensures Valid(db) ==> Valid(r.db)
  {
    if Videos in env.unavailable then Step(db, v, Some(StoreFailure(Videos)))
    else
      var row := v.(id := db.lastVideoId + 1);
      var db' := db.(videos := db.videos + [row], lastVideoId := row.id);
      assert Valid(db) ==> Valid(db') by {
        if Valid(db) {
          NumberedAppend(db.videos, VideoId, db.lastVideoId, row);
        }
      }
      Step(db', row, None)
  }

  /** `save`: with no error yet, run the insert callback once; its error becomes the transaction's. */
  function Save(env: Env, db: Db, err: Option<Error>, a: Attachment): (r: Step<Attachment>)
    ensures err.Some? ==> r == Step(db, a, err)
    ensures r.row.PhotoRow? <==> a.PhotoRow?
    ensures a.PhotoRow? && err.None? ==> r == (var s := InsertPhoto(env, db, a.photo); Step(s.db, PhotoRow(s.row), s.err))
    ensures a.VideoRow? && err.None? ==> r == (var s := InsertVideo(env, db, a.video); Step(s.db, VideoRow(s.row), s.err))
    ensures Valid(db) ==> Valid(r.db)
  {
    if err.Some? then Step(db, a, err)
    else match a
      case PhotoRow(p) => var s := InsertPhoto(env, db, p); Step(s.db, PhotoRow(s.row), s.err)
      case VideoRow(v) => var s := InsertVideo(env, db, v); Step(s.db, VideoRow(s.row), s.err)
  }

  /** `download`: the attempt is logged (the file is created first), and it fails as the oracle says. */
  function Download(env: Env, db: Db, task: DownloadTask): (r: Effect)
    ensures r.db == db.(downloads := db.downloads + [task])
    ensures r.err.None? <==> task !in env.failingDownloads
    ensures r.err.Some? ==> r.err == Some(DownloadFailed(task))
  {
    Effect(db.(downloads := db.downloads + [task]),
           if task in env.failingDownloads then Some(DownloadFailed(task)) else None)
  }

  /** The index of the first task whose download fails, or the number of tasks when none does. */
  function FirstFailing(env: Env, tasks: seq<DownloadTask>): (k: nat)
    ensures k <= |tasks|
    ensures forall j :: 0 <= j < k ==> tasks[j] !in env.failingDownloads
    ensures k < |tasks| ==> tasks[k] in env.failingDownloads
  {
    if tasks == [] || tasks[0] in env.failingDownloads then 0 else 1 + FirstFailing(env, tasks[1..])
  }

  /** The tasks `downloadAll` starts: all of them, or those up to and including the first failure. */
  function Started(env: Env, tasks: seq<DownloadTask>): (r: seq<DownloadTask>)
    ensures var k := FirstFailing(env, tasks); r == if k < |tasks| then tasks[..k + 1] else tasks
  {
    if tasks == [] then []
    else if tasks[0] in env.failingDownloads then [tasks[0]]
    else
      var rest := Started(env, tasks[1..]);
      assert [tasks[0]] + rest == (var k := FirstFailing(env, tasks); if k < |tasks| then tasks[..k + 1] else tasks) by {
        var k := FirstFailing(env, tasks[1..]);
        if k < |tasks| - 1 {
          assert [tasks[0]] + tasks[1..][..k + 1] == tasks[..k + 2];
        } else {
          assert [tasks[0]] + tasks[1..] == tasks;
        }
      }
      [tasks[0]] + rest
  }

  /** The first failing task is the one at `i` when every task before it succeeds. */
  lemma FailsAt(env: Env, tasks: seq<DownloadTask>, i: nat)
    requires i < |tasks| && tasks[i] in env.failingDownloads
    requires forall k :: 0 <= k < i ==> tasks[k] !in env.failingDownloads
    ensures FirstFailing(env, tasks) == i && Started(env, tasks) == tasks[..i + 1]
  {
  }

  lemma NoneFails(env: Env, tasks: seq<DownloadTask>)
    requires forall k :: 0 <= k < |tasks| ==> tasks[k] !in env.failingDownloads
    ensures FirstFailing(env, tasks) == |tasks| && Started(env, tasks) == tasks
  {
  }

  lemma LogAppend(log: seq<DownloadTask>, t: DownloadTask, rest: seq<DownloadTask>)
    ensures (log + [t]) + rest == log + ([t] + rest)
  {
  }

  /** `downloadAll`: it starts the tasks in order and stops at the first failure, whose error it
      reports. */
  function DownloadEach(env: Env, db: Db, tasks: seq<DownloadTask>): (r: Effect)
    ensures r.db == db.(downloads := db.downloads + Started(env, tasks))
    ensures var k := FirstFailing(env, tasks); r.err == (if k < |tasks| then Some(DownloadFailed(tasks[k])) else None)
    decreases |tasks|
  {
    if tasks == [] then Effect(db, None)
    else
      var d := Download(env, db, tasks[0]);
      if d.err.Some? then d
      else
        var r := DownloadEach(env, d.db, tasks[1..]);
        LogAppend(db.downloads, tasks[0], Started(env, tasks[1..]));
        assert FirstFailing(env, tasks) == 1 + FirstFailing(env, tasks[1..]);
        r
  }

  /** `downloadAll` on a transaction whose error is `err`. */
  function DownloadAll(env: Env, db: Db, err: Option<Error>, tasks: seq<DownloadTask>): (r: Effect)
    ensures err.Some? ==> r == Effect(db, err)
    ensures err.None? ==> r == DownloadEach(env, db, tasks)
  {
    if err.Some? then Effect(db, err) else DownloadEach(env, db, tasks)
  }

  /** `AddPhoto`: validate the URL, insert the row, then download the photo to the path built from
      the id the insert assigned. The result is the store, the photo as the caller's pointer holds it,
      and the transaction's final error. */
  function AddPhoto(env: Env, db: Db, photo: Photo): (r: Step<Photo>)
    ensures !RequestUri.Valid(photo.externalUrl) ==>
      r == Step(db, photo, Some(InvalidUrl(photo.externalUrl, RequestUri.ParseRequestUri(photo.externalUrl).value)))
    ensures RequestUri.Valid(photo.externalUrl) && Photos in env.unavailable ==>
      r == Step(db, photo, Some(StoreFailure(Photos)))
    ensures RequestUri.Valid(photo.externalUrl) && Photos !in env.unavailable ==>
      var task := DownloadTask(photo.externalUrl, PhotoPath(env, r.row));
      && r.row == photo.(id := db.lastPhotoId + 1) && r.row.id > 0
      && r.db == db.(photos := db.photos + [r.row], lastPhotoId := r.row.id, downloads := db.downloads + [task])
      && (r.err.None? <==> task !in env.failingDownloads)
    ensures Valid(db) ==> Valid(r.db)
  {
    var validated := ValidateUrls(None, [photo.externalUrl]);
    var saved := Save(env, db, validated, PhotoRow(photo));
    var row := saved.row.photo;
    var done := DownloadAll(env, saved.db, saved.err, [DownloadTask(photo.externalUrl, PhotoPath(env, row))]);
    Step(done.db, row, done.err)
  }

  /** Two downloads in a row, the second only when the first succeeded. */
  function TwoDownloads(env: Env, db: Db, first: DownloadTask, second: DownloadTask): (r: Effect)
    ensures first in env.failingDownloads ==>
      r == Effect(db.(downloads := db.downloads + [first]), Some(DownloadFailed(first)))
    ensures first !in env.failingDownloads ==>
      r.db == db.(downloads := db.downloads + [first, second]) && (r.err.None? <==> second !in env.failingDownloads)
  {
    var d := Download(env, db, first);
    if d.err.Some? then d else Download(env, d.db, second)
  }

  lemma DownloadPair(env: Env, db: Db, tasks: seq<DownloadTask>)
    requires |tasks| == 2
    ensures DownloadEach(env, db, tasks) == TwoDownloads(env, db, tasks[0], tasks[1])
  {
    var d := Download(env, db, tasks[0]);
    if d.err.None? {
      assert tasks[1..][1..] == [];
      assert DownloadEach(env, d.db, tasks[1..]) == Download(env, d.db, tasks[1]);
    }
  }

  /** `AddVideo`: validate the video URL, then the thumbnail URL, insert the row, then download the
      video and then the thumbnail, to the paths built from the id the insert assigned. */
  function AddVideo(env: Env, db: Db, video: Video): (r: Step<Video>)
    ensures !RequestUri.Valid(video.externalUrl) ==>
      r == Step(db, video, Some(InvalidUrl(video.externalUrl, RequestUri.ParseRequestUri(video.externalUrl).value)))
    ensures RequestUri.Valid(video.externalUrl) && !RequestUri.Valid(video.thumbnailUrl) ==>
      r == Step(db, video, Some(InvalidUrl(video.thumbnailUrl, RequestUri.ParseRequestUri(video.thumbnailUrl).value)))
    ensures RequestUri.Valid(video.externalUrl) && RequestUri.Valid(video.thumbnailUrl) && Videos in env.unavailable ==>
      r == Step(db, video, Some(StoreFailure(Videos)))
    ensures RequestUri.Valid(video.externalUrl) && RequestUri.Valid(video.thumbnailUrl) && Videos !in env.unavailable ==>
      var first := DownloadTask(video.externalUrl, VideoPath(env, r.row));
      var second := DownloadTask(video.thumbnailUrl, ThumbnailPath(env, r.row));
      && r.row == video.(id := db.lastVideoId + 1) && r.row.id > 0
      && r.db.videos == db.videos + [r.row] && r.db.lastVideoId == r.row.id
      && r.db == db.(videos := r.db.videos, lastVideoId := r.db.lastVideoId, downloads := r.db.downloads)
      && (first in env.failingDownloads ==> r.db.downloads == db.downloads + [first] && r.err == Some(DownloadFailed(first)))
      && (first !in env.failingDownloads ==>
            r.db.downloads == db.downloads + [first, second] && (r.err.None? <==> second !in env.failingDownloads))
    ensures Valid(db) ==> Valid(r.db)
  {
    var urls := [video.externalUrl, video.thumbnailUrl];
    var validated := ValidateUrls(None, urls);
    assert validated ==
      if !RequestUri.Valid(urls[0]) then Some(InvalidUrl(urls[0], RequestUri.ParseRequestUri(urls[0]).value))
      else if !RequestUri.Valid(urls[1]) then Some(InvalidUrl(urls[1], RequestUri.ParseRequestUri(urls[1]).value))
      else None
    by {
      assert urls[1..] == [urls[1]] && urls[1..][1..] == [];
    }
    var saved := Save(env, db, validated, VideoRow(video));
    var row := saved.row.video;
    var tasks := [DownloadTask(video.externalUrl, VideoPath(env, row)), DownloadTask(video.thumbnailUrl, ThumbnailPath(env, row))];
    var done := DownloadAll(env, saved.db, saved.err, tasks);
    assert saved.err.None? ==> done == TwoDownloads(env, saved.db, tasks[0], tasks[1]) by {
      if saved.err.None? {
        DownloadPair(env, saved.db, tasks);
      }
    }
    Step(done.db, row, done.err)
  }

  // ---------------------------------------------------------------------------------------------
  // Properties that relate several operations

  /** After a successful `AddPost`, `PostExistsWithExternalID` finds the post. */
  lemma AddedPostExists(env: Env, db: Db, p: Post)
    requires InsertPost(env, db, p).err.None?
    ensures PostExists(env, InsertPost(env, db, p).db, p.externalId)
  {
    var r := InsertPost(env, db, p);
    assert r.db.posts[|db.posts|].externalId == p.externalId;
  }

  /** A failed insert leaves every table as it was; a second `AddPost` of the same post always fails. */
  lemma AddPostTwice(env: Env, db: Db, p: Post)
    requires InsertPost(env, db, p).err.None?
    ensures var again := InsertPost(env, InsertPost(env, db, p).db, p);
      again.err == Some(UniqueViolation("posts.external_id")) && again.db == InsertPost(env, db, p).db
  {
    AddedPostExists(env, db, p);
  }

  /** In a valid store the tag found by name is the only one with that name. */
  lemma FoundTagIsTheOne(env: Env, db: Db, name: string, i: nat)
    requires Valid(db) && FindTag(env, db, name).Some?
    requires i < |db.tags| && db.tags[i].name == name
    ensures FindTag(env, db, name).value == db.tags[i]
  {
    var t := FindTag(env, db, name).value;
    var k :| 0 <= k < |db.tags| && db.tags[k] == t;
    assert NameOf(db.tags[k]) == NameOf(db.tags[i]);
  }

  /** `AddTagToPost` with a name no tag has: the tag is created under the next id and paired. */
  lemma NewTagStep(env: Env, db: Db, postId: nat, name: string)
    requires Valid(db) && env.unavailable == {}
    requires !TagNameStored(db, name) && PostTag(postId, db.lastTagId + 1) !in db.postsTags
    ensures var r := TagPost(env, db, postId, name);
      && r.err.None? && r.db.tags == db.tags + [Tag(db.lastTagId + 1, name)]
      && r.db.lastTagId == db.lastTagId + 1
      && r.db.postsTags == db.postsTags + [PostTag(postId, db.lastTagId + 1)]
  {
  }

  /** `AddTagToPost` with the name of the stored tag at index i: that tag is reused, and the pair is
      added unless it is already there. */
  lemma ExistingTagStep(env: Env, db: Db, postId: nat, i: nat)
    requires Valid(db) && env.unavailable == {} && i < |db.tags|
    ensures var r := TagPost(env, db, postId, db.tags[i].name);
      && r.db.tags == db.tags && r.db.lastTagId == db.lastTagId
      && (PostTag(postId, db.tags[i].id) in db.postsTags ==>
            r.err == Some(UniqueViolation("posts_tags.post_id, posts_tags.tag_id")))
      && (PostTag(postId, db.tags[i].id) !in db.postsTags ==>
            r.err.None? && r.db.postsTags == db.postsTags + [PostTag(postId, db.tags[i].id)])
  {
    FoundTagIsTheOne(env, db, db.tags[i].name, i);
  }

  /** In a valid store every pair names a tag id the counter has handed out. */
  lemma PairedTagIdsBounded(db: Db)
    requires Valid(db)
    ensures forall k :: 0 <= k < |db.postsTags| ==> db.postsTags[k].tagId <= db.lastTagId
  {
    forall k | 0 <= k < |db.postsTags| ensures db.postsTags[k].tagId <= db.lastTagId {
      var j :| 0 <= j < |db.tags| && db.tags[j].id == db.postsTags[k].tagId;
      assert TagId(db.tags[j]) <= db.lastTagId;
    }
  }

  /** The post carries a stored tag with this name. */
  ghost predicate TagPaired(db: Db, postId: nat, name: string) {
    exists t :: t in db.tags && t.name == name && PostTag(postId, t.id) in db.postsTags
  }

  /** Appending tags and pairs never takes a pairing away. */
  lemma TagPairedGrows(db: Db, db': Db, postId: nat, name: string)
    requires TagPaired(db, postId, name) && db.tags <= db'.tags && db.postsTags <= db'.postsTags
    ensures TagPaired(db', postId, name)
  {
    var t :| t in db.tags && t.name == name && PostTag(postId, t.id) in db.postsTags;
    var i :| 0 <= i < |db.tags| && db.tags[i] == t;
    var j :| 0 <= j < |db.postsTags| && db.postsTags[j] == PostTag(postId, t.id);
    assert db'.tags[i] == t && db'.postsTags[j] == PostTag(postId, t.id);
  }

  /** With both tag tables working, `AddTagToPost` only appends, and afterwards the post carries a
      tag of that name: either the call paired it, or the composite key refused a pair that was
      already there. A new tag's id is above every paired id, so its pair is never refused. */
  lemma TagPostPairs(env: Env, db: Db, postId: nat, name: string)
    requires Valid(db) && Tags !in env.unavailable && PostsTags !in env.unavailable
    ensures var r := TagPost(env, db, postId, name);
      && db.tags <= r.db.tags && db.postsTags <= r.db.postsTags
      && TagPaired(r.db, postId, name)
  {
    var r := TagPost(env, db, postId, name);
    if TagNameStored(db, name) {
      var t := FindTag(env, db, name).value;
      assert r == InsertPostTag(env, db, postId, t.id);
      assert PostTag(postId, t.id) in r.db.postsTags;
    } else {
      var created := Tag(db.lastTagId + 1, name);
      var db1 := db.(tags := db.tags + [created], lastTagId := created.id);
      assert r == InsertPostTag(env, db1, postId, created.id);
      PairedTagIdsBounded(db);
      assert PostTag(postId, created.id) !in db1.postsTags;
      assert r.db.postsTags == db.postsTags + [PostTag(postId, created.id)];
      assert created in r.db.tags;
    }
  }

  /** The store after the first call of the tag test: the stored tag, then "new-tag" under id n,
      which the post carries; no pair names an id above n. */
  ghost predicate AfterNewTag(db: Db, postId: nat, n: nat) {
    && Valid(db) && |db.tags| == 2 && db.tags[0].name == "existing-tag" && db.tags[1] == Tag(n, "new-tag")
    && db.lastTagId == n && PostTag(postId, n) in db.postsTags
    && forall k :: 0 <= k < |db.postsTags| ==> db.postsTags[k].tagId <= n
  }

  /** The tag tests' sequence, one call at a time: first a name no tag has. */
  lemma TagScenarioOne(env: Env, db: Db, postId: nat, r1: Effect)
    requires Valid(db) && env.unavailable == {}
    requires |db.tags| == 1 && db.tags[0].name == "existing-tag"
    requires forall k :: 0 <= k < |db.postsTags| ==> db.postsTags[k].postId != postId
    requires r1 == TagPost(env, db, postId, "new-tag")
    ensures r1.err.None? && r1.db.tags == [db.tags[0], Tag(db.lastTagId + 1, "new-tag")]
    ensures r1.db.postsTags == db.postsTags + [PostTag(postId, db.lastTagId + 1)]
    ensures AfterNewTag(r1.db, postId, db.lastTagId + 1) && PostTag(postId, r1.db.tags[0].id) !in r1.db.postsTags
  {
    var n := db.lastTagId + 1;
    assert db.tags[0].id < n;
    assert !TagNameStored(db, "new-tag");
    assert PostTag(postId, n) !in db.postsTags;
    NewTagStep(env, db, postId, "new-tag");
    PairedTagIdsBounded(r1.db);
    SingleAppend(db.tags, Tag(n, "new-tag"));
    var pair := PostTag(postId, db.tags[0].id);
    assert pair !in db.postsTags;
    assert pair != PostTag(postId, n);
  }

  lemma SingleAppend(tags: seq<Tag>, t: Tag)
    requires |tags| == 1
    ensures tags + [t] == [tags[0], t]
  {
  }

  /** Then the stored name, which the post does not carry yet. */
  lemma TagScenarioTwo(env: Env, db: Db, postId: nat, n: nat, r2: Effect)
    requires env.unavailable == {}
    requires AfterNewTag(db, postId, n) && PostTag(postId, db.tags[0].id) !in db.postsTags
    requires r2 == TagPost(env, db, postId, "existing-tag")
    ensures r2.err.None? && r2.db.tags == db.tags && AfterNewTag(r2.db, postId, n)
  {
    ExistingTagStep(env, db, postId, 0);
  }

  /** Then another new name. */
  lemma TagScenarioThree(env: Env, db: Db, postId: nat, n: nat, r3: Effect)
    requires env.unavailable == {}
    requires AfterNewTag(db, postId, n)
    requires r3 == TagPost(env, db, postId, "another-tag")
    ensures r3.err.None? && Valid(r3.db) && |r3.db.tags| == 3 && r3.db.tags[1] == Tag(n, "new-tag")
    ensures PostTag(postId, n) in r3.db.postsTags
  {
    AnotherTagIsNew(db.tags);
    assert PostTag(postId, n + 1) !in db.postsTags;
    NewTagStep(env, db, postId, "another-tag");
  }

  lemma AnotherTagIsNew(tags: seq<Tag>)
    requires |tags| == 2 && tags[0].name == "existing-tag" && tags[1].name == "new-tag"
    ensures forall i :: 0 <= i < |tags| ==> tags[i].name != "another-tag"
  {
    assert |tags[0].name| == 12 && |tags[1].name| == 7 && |"another-tag"| == 11;
  }

  /** And the first name again, which the post already carries. */
  lemma TagScenarioFour(env: Env, db: Db, postId: nat, n: nat, r4: Effect)
    requires Valid(db) && env.unavailable == {}
    requires |db.tags| == 3 && db.tags[1] == Tag(n, "new-tag") && PostTag(postId, n) in db.postsTags
    requires r4 == TagPost(env, db, postId, "new-tag")
    ensures r4.err == Some(UniqueViolation("posts_tags.post_id, posts_tags.tag_id")) && |r4.db.tags| == 3
  {
    ExistingTagStep(env, db, postId, 1);
  }

  /** The sequence the tag tests run on a post that carries no tag yet, in a store holding one tag:
      a new name, the existing name and another new name succeed, the first name again fails on the
      `posts_tags` key, and the store ends with three tags. */
  lemma TagScenario(env: Env, db: Db, postId: nat, r1: Effect, r2: Effect, r3: Effect, r4: Effect)
    requires Valid(db) && env.unavailable == {}
    requires |db.tags| == 1 && db.tags[0].name == "existing-tag"
    requires forall k :: 0 <= k < |db.postsTags| ==> db.postsTags[k].postId != postId
    requires r1 == TagPost(env, db, postId, "new-tag")
    requires r2 == TagPost(env, r1.db, postId, "existing-tag")
    requires r3 == TagPost(env, r2.db, postId, "another-tag")
    requires r4 == TagPost(env, r3.db, postId, "new-tag")
    ensures r1.err.None? && r2.err.None? && r3.err.None?
    ensures r4.err == Some(UniqueViolation("posts_tags.post_id, posts_tags.tag_id"))
    ensures |db.tags| == 1 && |r4.db.tags| == 3
  {
    var n := db.lastTagId + 1;
    TagScenarioOne(env, db, postId, r1);
    TagScenarioTwo(env, r1.db, postId, n, r2);
    TagScenarioThree(env, r2.db, postId, n, r3);
    TagScenarioFour(env, r3.db, postId, n, r4);
  }

  /** An extension is empty or starts with a dot, so it never starts with a digit. */
  lemma ExtensionNotDigit(u: string)
    ensures UrlExtension.Extension(u) == [] || !IsDigit(UrlExtension.Extension(u)[0])
  {
  }

  /** Different photos get different file names, so no download overwrites another photo's file. */
  lemma PhotoFileNamesDistinct(p: Photo, q: Photo)
    requires p.id != q.id
    ensures PhotoFileName(p) != PhotoFileName(q)
  {
    var x, y := UrlExtension.Extension(p.externalUrl), UrlExtension.Extension(q.externalUrl);
    ExtensionNotDigit(p.externalUrl);
    ExtensionNotDigit(q.externalUrl);
    if PhotoFileName(p) == PhotoFileName(q) {
      PrefixedNatToString("photo_", p.id, x, q.id, y);
    }
  }

  /** Different videos get different file names. */
  lemma VideoFileNamesDistinct(v: Video, w: Video)
    requires v.id != w.id
    ensures VideoFileName(v) != VideoFileName(w)
  {
    var x, y := UrlExtension.Extension(v.externalUrl), UrlExtension.Extension(w.externalUrl);
    ExtensionNotDigit(v.externalUrl);
    ExtensionNotDigit(w.externalUrl);
    if VideoFileName(v) == VideoFileName(w) {
      PrefixedNatToString("video_", v.id, x, w.id, y);
    }
  }

  /** A thumbnail's file name is never a video's file name, whatever the two ids and URLs. */
  lemma ThumbnailNeverVideoFile(v: Video, w: Video)
    ensures ThumbnailFileName(v) != VideoFileName(w)
  {
    var x := "_thumbnail" + UrlExtension.Extension(v.thumbnailUrl);
    var y := UrlExtension.Extension(w.externalUrl);
    ExtensionNotDigit(w.externalUrl);
    assert x[0] == '_';
    assert ThumbnailFileName(v) == "video_" + NatToString(v.id) + x;
    if ThumbnailFileName(v) == VideoFileName(w) {
      PrefixedNatToString("video_", v.id, x, w.id, y);
    }
  }

  /** Photo and video files never share a name. */
  lemma PhotoNeverVideoFile(p: Photo, v: Video)
    ensures PhotoFileName(p) != VideoFileName(v) && PhotoFileName(p) != ThumbnailFileName(v)
  {
    assert PhotoFileName(p)[0] == 'p';
    assert VideoFileName(v)[0] == 'v' && ThumbnailFileName(v)[0] == 'v';
  }

  /** `filepath.Join` with the media folder loses nothing: different names give different paths. */
  lemma JoinInjective(dir: string, x: string, y: string)
    ensures Join(dir, x) == Join(dir, y) ==> x == y
  {
    if dir != "" && Join(dir, x) == Join(dir, y) {
      assert x == (dir + "/" + x)[|dir| + 1..];
      assert y == (dir + "/" + y)[|dir| + 1..];
    }
  }

  /** Every stored medium has a file of its own: photos with different ids, videos with different
      ids and any thumbnail and any video are downloaded to different paths, and no photo shares a
      path with a video or a thumbnail. */
  lemma MediaPathsDistinct(env: Env, p: Photo, q: Photo, v: Video, w: Video)
    ensures p.id != q.id ==> PhotoPath(env, p) != PhotoPath(env, q)
    ensures v.id != w.id ==> VideoPath(env, v) != VideoPath(env, w)
    ensures ThumbnailPath(env, v) != VideoPath(env, w)
    ensures PhotoPath(env, p) != VideoPath(env, v) && PhotoPath(env, p) != ThumbnailPath(env, v)
  {
    JoinInjective(env.mediaFolder, PhotoFileName(p), PhotoFileName(q));
    JoinInjective(env.mediaFolder, VideoFileName(v), VideoFileName(w));
    JoinInjective(env.mediaFolder, ThumbnailFileName(v), VideoFileName(w));
    JoinInjective(env.mediaFolder, PhotoFileName(p), VideoFileName(v));
    JoinInjective(env.mediaFolder, PhotoFileName(p), ThumbnailFileName(v));
    if p.id != q.id {
      PhotoFileNamesDistinct(p, q);
    }
    if v.id != w.id {
      VideoFileNamesDistinct(v, w);
    }
    ThumbnailNeverVideoFile(v, w);
    PhotoNeverVideoFile(p, v);
  }

  /** The file names come out of the id's decimal form and the URL's extension. */
  lemma PhotoFileNameIs(p: Photo, digits: string, e: string)
    requires NatToString(p.id) == digits && UrlExtension.Extension(p.externalUrl) == "." + e
    ensures PhotoFileName(p) == "photo_" + digits + "." + e
  {
  }

  lemma PhotoFileNamePlain(p: Photo, digits: string)
    requires NatToString(p.id) == digits && UrlExtension.Extension(p.externalUrl) == ""
    ensures PhotoFileName(p) == "photo_" + digits
  {
    assert PhotoFileName(p) == "photo_" + digits + "";
  }

  lemma VideoFileNameIs(v: Video, digits: string, e: string)
    requires NatToString(v.id) == digits && UrlExtension.Extension(v.externalUrl) == "." + e
    ensures VideoFileName(v) == "video_" + digits + "." + e
  {
  }

  lemma VideoFileNamePlain(v: Video, digits: string)
    requires NatToString(v.id) == digits && UrlExtension.Extension(v.externalUrl) == ""
    ensures VideoFileName(v) == "video_" + digits
  {
    assert VideoFileName(v) == "video_" + digits + "";
  }

  lemma ThumbnailFileNameIs(v: Video, digits: string, e: string)
    requires NatToString(v.id) == digits && UrlExtension.Extension(v.thumbnailUrl) == "." + e
    ensures ThumbnailFileName(v) == "video_" + digits + "_thumbnail" + "." + e
  {
  }

  lemma ThumbnailFileNamePlain(v: Video, digits: string)
    requires NatToString(v.id) == digits && UrlExtension.Extension(v.thumbnailUrl) == ""
    ensures ThumbnailFileName(v) == "video_" + digits + "_thumbnail"
  {
    assert ThumbnailFileName(v) == "video_" + digits + "_thumbnail" + "";
  }

  /** The file names the photo tests expect. */
  lemma PhotoFileNameWithPath(a: Photo)
    requires a.id == 1 && a.externalUrl == "http://example.com/some/path/filename.jpg"
    ensures PhotoFileName(a) == "photo_" + "1" + "." + "jpg"
  {
    SmallIds();
    UrlExtension.ExamplePath(a.externalUrl, "jpg");
    PhotoFileNameIs(a, "1", "jpg");
  }

  lemma PhotoFileNameWithQuery(b: Photo)
    requires b.id == 1234 && b.externalUrl == "http://example.com/filename.jpeg?q=t#fragment"
    ensures PhotoFileName(b) == "photo_" + "1234" + "." + "jpeg"
  {
    Id1234();
    UrlExtension.ExampleQuery(b.externalUrl, "jpeg");
    PhotoFileNameIs(b, "1234", "jpeg");
  }

  lemma PhotoFileNamesWithout(c: Photo, d: Photo)
    requires c.id == 54543 && c.externalUrl == "http://example.com"
    requires d.id == 2 && d.externalUrl == "not a url"
    ensures PhotoFileName(c) == "photo_" + "54543"
    ensures PhotoFileName(d) == "photo_" + "2"
  {
    Id54543();
    SmallIds();
    UrlExtension.ExamplesWithout(c.externalUrl, d.externalUrl);
    PhotoFileNamePlain(c, "54543");
    PhotoFileNamePlain(d, "2");
  }

  /** The file names the video tests expect. */
  lemma VideoFileNameWithPath(a: Video)
    requires a.id == 1 && a.externalUrl == "http://example.com/some/path/filename.avi"
    ensures VideoFileName(a) == "video_" + "1" + "." + "avi"
  {
    SmallIds();
    UrlExtension.ExamplePath(a.externalUrl, "avi");
    VideoFileNameIs(a, "1", "avi");
  }

  lemma VideoFileNameWithQuery(b: Video)
    requires b.id == 1234 && b.externalUrl == "http://example.com/filename.mpeg?q=t#fragment"
    ensures VideoFileName(b) == "video_" + "1234" + "." + "mpeg"
  {
    Id1234();
    UrlExtension.ExampleQuery(b.externalUrl, "mpeg");
    VideoFileNameIs(b, "1234", "mpeg");
  }

  lemma VideoFileNamesWithout(c: Video, d: Video)
    requires c.id == 54543 && c.externalUrl == "http://example.com"
    requires d.id == 2 && d.externalUrl == "not a url"
    ensures VideoFileName(c) == "video_" + "54543"
    ensures VideoFileName(d) == "video_" + "2"
  {
    Id54543();
    SmallIds();
    UrlExtension.ExamplesWithout(c.externalUrl, d.externalUrl);
    VideoFileNamePlain(c, "54543");
    VideoFileNamePlain(d, "2");
  }

  /** The thumbnail file names the video tests expect. */
  lemma ThumbnailFileNameWithPath(a: Video)
    requires a.id == 4 && a.thumbnailUrl == "http://example.com/some/path/filename.jpg"
    ensures ThumbnailFileName(a) == "video_" + "4" + "_thumbnail" + "." + "jpg"
  {
    SmallIds();
    UrlExtension.ExamplePath(a.thumbnailUrl, "jpg");
    ThumbnailFileNameIs(a, "4", "jpg");
  }

  lemma ThumbnailFileNameWithQuery(b: Video)
    requires b.id == 65464 && b.thumbnailUrl == "http://example.com/filename.jpeg?q=t#fragment"
    ensures ThumbnailFileName(b) == "video_" + "65464" + "_thumbnail" + "." + "jpeg"
  {
    Id65464();
    UrlExtension.ExampleQuery(b.thumbnailUrl, "jpeg");
    ThumbnailFileNameIs(b, "65464", "jpeg");
  }

  lemma ThumbnailFileNamesWithout(c: Video, d: Video)
    requires c.id == 34543 && c.thumbnailUrl == "http://example.com"
    requires d.id == 9 && d.thumbnailUrl == "not a url"
    ensures ThumbnailFileName(c) == "video_" + "34543" + "_thumbnail"
    ensures ThumbnailFileName(d) == "video_" + "9" + "_thumbnail"
  {
    Id34543();
    SmallIds();
    UrlExtension.ExamplesWithout(c.thumbnailUrl, d.thumbnailUrl);
    ThumbnailFileNamePlain(c, "34543");
    ThumbnailFileNamePlain(d, "9");
  }
}
