/** What a sync does, as functions from the store and the call log before it to the store and the
    call log after it: the conversion of remote posts into rows, the dedup gate, the dispatch on the
    post type, the offset pagination, and the import and export of the follow list. The `Syncer`
    class of module `Sync` is proved to do exactly this. */
module SyncSpec {

  import opened Wrappers
  import opened Decimal
  import opened Media
  import Api = TumblrApi

  /** The page size of every listing request. */
  const PageLimit: int := 20

  /** `time.Parse` with the layout "2006-01-02 15:04:05 MST": a partial function the model does
      not look into. */
  type DateParser = string -> Option<Time>

  // ---------------------------------------------------------------------------------------------
  // Rows built from remote records

  /** `createPost`: the row for a remote post, or nothing when its date does not parse. The status
      is left empty for the caller to set, and no id is assigned yet. */
  function CreatePost(parseDate: DateParser, ext: Api.Post): (r: Option<Post>)
    ensures r.None? <==> parseDate(ext.date).None?
    ensures r.Some? ==>
      && r.value.id == 0 && !r.value.sfw && r.value.source == "tumblr"
      && r.value.externalId == IntToString(ext.id)
      && r.value.kind == ext.kind && r.value.category == ext.blogName
      && r.value.externalUrl == ext.postUrl && r.value.sourceUrl == ext.sourceUrl
      && r.value.sourceCategory == ext.sourceTitle && r.value.likes == ext.noteCount
      && r.value.releasedAt == parseDate(ext.date).value && r.value.summary == ext.summary
  {
    match parseDate(ext.date)
    case None => None
    case Some(releasedAt) =>
      Some(Post(0, "", false, "tumblr", ext.kind, releasedAt, ext.blogName, IntToString(ext.id),
                ext.postUrl, ext.sourceUrl, ext.sourceTitle, ext.noteCount, ext.summary))
  }

  /** `createLink`: a link of the post to the remote URL, with no id yet. */
  function CreateLink(post: Post, ext: Api.Post): (r: Link)
    ensures r.id == 0 && r.postId == post.id && r.url == ext.url
  {
    Link(0, post.id, ext.url)
  }

  /** `createText`: a text of the post with the remote title and body, with no id yet. */
  function CreateText(post: Post, ext: Api.Post): (r: Text)
    ensures r.id == 0 && r.postId == post.id && r.title == ext.title && r.body == ext.body
  {
    Text(0, post.id, ext.title, ext.body)
  }

  /** `createVideo`: a video of the post with the remote video and thumbnail URLs, with no id yet. */
  function CreateVideo(post: Post, ext: Api.Post): (r: Video)
    ensures r.id == 0 && r.postId == post.id && r.externalUrl == ext.videoUrl && r.thumbnailUrl == ext.thumbnailUrl
  {
    Video(0, post.id, ext.videoUrl, ext.thumbnailUrl)
  }

  /** `createPhoto`: a photo of the post with the given URL and caption, never marked safe for
      work, with no id yet. */
  function CreatePhoto(post: Post, url: string, caption: string): (r: Photo)
    ensures r.id == 0 && r.postId == post.id && r.externalUrl == url && r.caption == caption && !r.sfw
  {
    Photo(0, post.id, caption, url, false)
  }

  /** Two remote posts with different ids never map to the same external id, so the gate never
      mistakes one for the other. */
  lemma ExternalIdsDistinct(parseDate: DateParser, a: Api.Post, b: Api.Post)
    requires CreatePost(parseDate, a).Some? && CreatePost(parseDate, b).Some?
    requires a.id != b.id
    ensures CreatePost(parseDate, a).value.externalId != CreatePost(parseDate, b).value.externalId
  {
    IntToStringInjective(a.id, b.id);
  }

  // ---------------------------------------------------------------------------------------------
  // One post (`syncBlogPost`)

  /** Outcome of a step of the sync: the store after it and the boolean the Go code returns. */
  datatype Synced = Synced(db: Db, ok: bool)

  predicate SupportedKind(kind: string) {
    kind == "link" || kind == "text" || kind == "photo" || kind == "video"
  }

  /** The photo loop of `syncBlogPost`: one `AddPhoto` per remote photo, in order, stopping at the
      first failure. */
  function AddPhotos(env: Env, db: Db, post: Post, photos: seq<Api.RemotePhoto>): (r: Synced)
    ensures r.db == db.(photos := r.db.photos, lastPhotoId := r.db.lastPhotoId, downloads := r.db.downloads)
    ensures db.photos <= r.db.photos && |r.db.photos| <= |db.photos| + |photos|
    ensures r.ok ==> |r.db.photos| == |db.photos| + |photos|
    ensures Valid(db) ==> Valid(r.db)
    decreases |photos|
  {
    if photos == [] then Synced(db, true)
    else
      var s := Media.AddPhoto(env, db, CreatePhoto(post, photos[0].url, photos[0].caption));
      if s.err.Some? then Synced(s.db, false) else AddPhotos(env, s.db, post, photos[1..])
  }

  lemma PhotosStep(env: Env, db: Db, post: Post, photos: seq<Api.RemotePhoto>, rest: seq<Api.RemotePhoto>)
    requires photos != [] && rest == photos[1..]
    ensures var s := Media.AddPhoto(env, db, CreatePhoto(post, photos[0].url, photos[0].caption));
      AddPhotos(env, db, post, photos) == if s.err.Some? then Synced(s.db, false) else AddPhotos(env, s.db, post, rest)
  {
  }

  /** What one `AddPhoto` of the loop adds: at most one row, the photo it was given with its new id. */
  lemma AddPhotoRow(env: Env, db: Db, photo: Photo)
    requires photo.id == 0
    ensures var s := Media.AddPhoto(env, db, photo);
      && (s.db.photos == db.photos || s.db.photos == db.photos + [photo.(id := db.lastPhotoId + 1)])
      && (s.err.None? ==> s.db.photos == db.photos + [photo.(id := db.lastPhotoId + 1)])
  {
  }

  /** The rows past `before` in `after` are the photos of the post, in order. */
  predicate PhotosFollow(before: seq<Photo>, after: seq<Photo>, post: Post, photos: seq<Api.RemotePhoto>) {
    forall j :: |before| <= j < |after| && j - |before| < |photos| ==>
      after[j].(id := 0) == CreatePhoto(post, photos[j - |before|].url, photos[j - |before|].caption)
  }

  lemma PhotosFollowStep(before: seq<Photo>, after: seq<Photo>, row: Photo, post: Post, photos: seq<Api.RemotePhoto>)
    requires photos != [] && row.(id := 0) == CreatePhoto(post, photos[0].url, photos[0].caption)
    requires before + [row] <= after
    requires PhotosFollow(before + [row], after, post, photos[1..])
    ensures PhotosFollow(before, after, post, photos)
  {
    var mid := before + [row];
    forall j | |before| <= j < |after| && j - |before| < |photos|
      ensures after[j].(id := 0) == CreatePhoto(post, photos[j - |before|].url, photos[j - |before|].caption)
    {
      if j == |before| {
        assert after[j] == mid[j];
      } else {
        assert photos[j - |before|] == photos[1..][j - |mid|];
      }
    }
  }

  /** The rows the photo loop adds are the post's photos, in order, each pointing at the post. */
  lemma {:induction false} AddPhotosInOrder(env: Env, db: Db, post: Post, photos: seq<Api.RemotePhoto>)
    ensures PhotosFollow(db.photos, AddPhotos(env, db, post, photos).db.photos, post, photos)
    decreases |photos|
  {
    if photos != [] {
      var photo := CreatePhoto(post, photos[0].url, photos[0].caption);
      var s := Media.AddPhoto(env, db, photo);
      AddPhotoRow(env, db, photo);
      if s.err.None? {
        AddPhotosInOrder(env, s.db, post, photos[1..]);
        PhotosFollowStep(db.photos, AddPhotos(env, s.db, post, photos[1..]).db.photos,
                         photo.(id := db.lastPhotoId + 1), post, photos);
      } else if s.db.photos != db.photos {
        var row := photo.(id := db.lastPhotoId + 1);
        assert s.db.photos == db.photos + [row];
        assert PhotosFollow(db.photos + [row], s.db.photos, post, photos[1..]);
        PhotosFollowStep(db.photos, s.db.photos, row, post, photos);
      }
    }
  }

  /** The switch of `syncBlogPost`: the child row (or rows) of the type tag, or failure for a type
      the syncer does not know. Posts, tags and subscriptions are never touched. */
  function AddChildren(env: Env, db: Db, post: Post, ext: Api.Post): (r: Synced)
    ensures r.db == db.(photos := r.db.photos, lastPhotoId := r.db.lastPhotoId,
                        videos := r.db.videos, lastVideoId := r.db.lastVideoId,
                        texts := r.db.texts, lastTextId := r.db.lastTextId,
                        links := r.db.links, lastLinkId := r.db.lastLinkId,
                        downloads := r.db.downloads)
    ensures !SupportedKind(post.kind) ==> r == Synced(db, false)
    ensures Valid(db) ==> Valid(r.db)
  {
    if post.kind == "link" then
      var s := InsertLink(env, db, CreateLink(post, ext));
      Synced(s.db, s.err.None?)
    else if post.kind == "text" then
      var s := InsertText(env, db, CreateText(post, ext));
      Synced(s.db, s.err.None?)
    else if post.kind == "photo" then
      AddPhotos(env, db, post, ext.photos)
    else if post.kind == "video" then
      var s := Media.AddVideo(env, db, CreateVideo(post, ext));
      Synced(s.db, s.err.None?)
    else
      Synced(db, false)
  }

  /** The tag loop of `syncBlogPost`: `AddTagToPost` for every tag, in order, errors ignored. */
  function AddTags(env: Env, db: Db, postId: nat, tags: seq<string>): (r: Db)
    ensures r == db.(tags := r.tags, lastTagId := r.lastTagId, postsTags := r.postsTags)
    ensures Valid(db) ==> Valid(r)
    decreases |tags|
  {
    if tags == [] then db
    else AddTags(env, TagPost(env, db, postId, tags[0]).db, postId, tags[1..])
  }

  /** What the tag loop is for: with both tag tables working, every remote tag ends up stored and
      paired with the post, whatever `AddTagToPost` reported, and nothing stored is taken away. */
  lemma {:induction false} AddTagsPairs(env: Env, db: Db, postId: nat, tags: seq<string>)
    requires Valid(db) && Tags !in env.unavailable && PostsTags !in env.unavailable
    ensures var r := AddTags(env, db, postId, tags);
      && db.tags <= r.tags && db.postsTags <= r.postsTags
      && forall name :: name in tags ==> TagPaired(r, postId, name)
    decreases |tags|
  {
    if tags != [] {
      var next := TagPost(env, db, postId, tags[0]).db;
      TagPostPairs(env, db, postId, tags[0]);
      AddTagsPairs(env, next, postId, tags[1..]);
      var r := AddTags(env, next, postId, tags[1..]);
      assert AddTags(env, db, postId, tags) == r;
      TagPairedGrows(next, r, postId, tags[0]);
      forall name | name in tags ensures TagPaired(r, postId, name) {
        if name != tags[0] {
          assert name in tags[1..];
        }
      }
    }
  }

  /** A remote post the gate or the post insert turns away without touching the store: the posts
      table fails, its external id is stored already, or its date does not parse. */
  predicate Settled(env: Env, parseDate: DateParser, db: Db, ext: Api.Post) {
    Posts in env.unavailable || ExternalIdStored(db, IntToString(ext.id)) || parseDate(ext.date).None?
  }

  /** Rows are only ever appended to `posts`, so a settled post stays settled. */
  lemma SettledGrows(env: Env, parseDate: DateParser, db: Db, db': Db, ext: Api.Post)
    requires Settled(env, parseDate, db, ext) && db.posts <= db'.posts
    ensures Settled(env, parseDate, db', ext)
  {
    if ExternalIdStored(db, IntToString(ext.id)) {
      var i :| 0 <= i < |db.posts| && db.posts[i].externalId == IntToString(ext.id);
      assert db'.posts[i] == db.posts[i];
    }
  }

  /** `syncBlogPost`: skip a post whose external id is stored; build the row (a date that does not
      parse ends it); insert it with the given status; add the child rows of its type; attach its tags
      only when the status is "added". True exactly when all of that happened. */
  function SyncPost(env: Env, parseDate: DateParser, db: Db, ext: Api.Post, status: string): (r: Synced)
    ensures Settled(env, parseDate, db, ext) ==> r == Synced(db, false)
    ensures !Settled(env, parseDate, db, ext) ==>
      && r.db.posts == db.posts + [CreatePost(parseDate, ext).value.(status := status, id := db.lastPostId + 1)]
      && r.db.lastPostId == db.lastPostId + 1
    ensures Settled(env, parseDate, r.db, ext)
    ensures r.db.subscriptions == db.subscriptions && r.db.lastSubscriptionId == db.lastSubscriptionId
    ensures status != "added" ==> r.db.tags == db.tags && r.db.lastTagId == db.lastTagId && r.db.postsTags == db.postsTags
    ensures Valid(db) ==> Valid(r.db)
  {
    if PostExists(env, db, IntToString(ext.id)) then Synced(db, false)
    else
      match CreatePost(parseDate, ext)
      case None => Synced(db, false)
      case Some(post) =>
        var added := InsertPost(env, db, post.(status := status));
        if added.err.Some? then Synced(added.db, false)
        else
          assert added.db.posts[|db.posts|].externalId == IntToString(ext.id);
          AfterInsert(env, added.db, added.row, ext)
  }

  /** The part of `syncBlogPost` after the post row is in: children, then tags for "added" posts. */
  function AfterInsert(env: Env, db: Db, post: Post, ext: Api.Post): (r: Synced)
    ensures r.db.posts == db.posts && r.db.lastPostId == db.lastPostId
    ensures r.db.subscriptions == db.subscriptions && r.db.lastSubscriptionId == db.lastSubscriptionId
    ensures post.status != "added" ==> r.db.tags == db.tags && r.db.lastTagId == db.lastTagId && r.db.postsTags == db.postsTags
    ensures !SupportedKind(post.kind) ==> r == Synced(db, false)
    ensures r.ok == AddChildren(env, db, post, ext).ok && r.db.photos == AddChildren(env, db, post, ext).db.photos
    ensures Valid(db) ==> Valid(r.db)
  {
    var child := AddChildren(env, db, post, ext);
    if !child.ok then child
    else if post.status != "added" then child
    else Synced(AddTags(env, child.db, post.id, ext.tags), true)
  }

  /** A post of a type the syncer does not know keeps its row but gets no child and reports
      failure; from then on the gate skips it. */
  lemma UnsupportedKindKeepsPost(env: Env, parseDate: DateParser, db: Db, ext: Api.Post, status: string)
    requires !Settled(env, parseDate, db, ext) && !SupportedKind(ext.kind)
    ensures var r := SyncPost(env, parseDate, db, ext, status);
      var row := CreatePost(parseDate, ext).value.(status := status, id := db.lastPostId + 1);
      && !r.ok
      && r.db == db.(posts := db.posts + [row], lastPostId := row.id)
      && Settled(env, parseDate, r.db, ext)
  {
    var post := CreatePost(parseDate, ext).value;
    assert !PostExists(env, db, IntToString(ext.id));
    var added := InsertPost(env, db, post.(status := status));
    assert added.err.None? && added.row.kind == ext.kind;
    assert AfterInsert(env, added.db, added.row, ext) == Synced(added.db, false);
  }

  /** A post that passes the gate: its row goes in under the next id, and the rest of
      `syncBlogPost` runs on the store that holds it. */
  lemma PostInserted(env: Env, parseDate: DateParser, db: Db, ext: Api.Post, status: string)
    requires !Settled(env, parseDate, db, ext)
    ensures var row := CreatePost(parseDate, ext).value.(status := status, id := db.lastPostId + 1);
      SyncPost(env, parseDate, db, ext, status)
        == AfterInsert(env, db.(posts := db.posts + [row], lastPostId := row.id), row, ext)
  {
    var post := CreatePost(parseDate, ext).value;
    assert !PostExists(env, db, IntToString(ext.id));
    var added := InsertPost(env, db, post.(status := status));
    assert added.err.None?;
  }

  /** Tagging touches no child table: after the post row is in, the links, texts and videos are
      those of the children step, and a failed children step is the whole outcome. */
  lemma AfterInsertChildren(env: Env, db: Db, post: Post, ext: Api.Post)
    ensures var r := AfterInsert(env, db, post, ext);
      var child := AddChildren(env, db, post, ext);
      && r.ok == child.ok && (!child.ok ==> r == child)
      && r.db.links == child.db.links && r.db.texts == child.db.texts && r.db.videos == child.db.videos
  {
  }

  /** An "added" post once its row is in: when it is reported stored and both tag tables work,
      every remote tag of the post is stored and paired with it. */
  lemma AddedPostTagged(env: Env, db: Db, post: Post, ext: Api.Post)
    requires Valid(db) && post.status == "added"
    requires Tags !in env.unavailable && PostsTags !in env.unavailable
    ensures var r := AfterInsert(env, db, post, ext);
      r.ok ==> forall name :: name in ext.tags ==> TagPaired(r.db, post.id, name)
  {
    var child := AddChildren(env, db, post, ext);
    if child.ok {
      AddTagsPairs(env, child.db, post.id, ext.tags);
    }
  }

  /** A link post once its row is in: the one link row points at the post and carries the remote
      URL; the post is reported stored exactly when the links table takes that row, and otherwise
      nothing more changes. */
  lemma LinkPostChild(env: Env, db: Db, post: Post, ext: Api.Post)
    requires post.kind == "link"
    ensures var r := AfterInsert(env, db, post, ext);
      && (r.ok <==> Links !in env.unavailable)
      && (r.ok ==> r.db.links == db.links + [Link(db.lastLinkId + 1, post.id, ext.url)])
      && (!r.ok ==> r == Synced(db, false))
  {
    AfterInsertChildren(env, db, post, ext);
    var s := InsertLink(env, db, CreateLink(post, ext));
    assert AddChildren(env, db, post, ext) == Synced(s.db, s.err.None?);
  }

  /** A text post once its row is in: the one text row points at the post and carries the remote
      title and body; the post is reported stored exactly when the texts table takes that row. */
  lemma TextPostChild(env: Env, db: Db, post: Post, ext: Api.Post)
    requires post.kind == "text"
    ensures var r := AfterInsert(env, db, post, ext);
      && (r.ok <==> Texts !in env.unavailable)
      && (r.ok ==> r.db.texts == db.texts + [Text(db.lastTextId + 1, post.id, ext.title, ext.body)])
      && (!r.ok ==> r == Synced(db, false))
  {
    AfterInsertChildren(env, db, post, ext);
    var s := InsertText(env, db, CreateText(post, ext));
    assert AddChildren(env, db, post, ext) == Synced(s.db, s.err.None?);
  }

  /** A video post once its row is in: an invalid video or thumbnail URL, or a failing videos table,
      changes nothing more and reports failure; otherwise the one video row that goes in points at
      the post and carries both remote URLs, and it stays even when a download then fails. */
  lemma VideoPostChild(env: Env, db: Db, post: Post, ext: Api.Post)
    requires post.kind == "video"
    ensures var r := AfterInsert(env, db, post, ext);
      && (!RequestUri.Valid(ext.videoUrl) || !RequestUri.Valid(ext.thumbnailUrl) || Videos in env.unavailable ==>
            r == Synced(db, false))
      && (RequestUri.Valid(ext.videoUrl) && RequestUri.Valid(ext.thumbnailUrl) && Videos !in env.unavailable ==>
            r.db.videos == db.videos + [Video(db.lastVideoId + 1, post.id, ext.videoUrl, ext.thumbnailUrl)])
  {
    AfterInsertChildren(env, db, post, ext);
    var s := Media.AddVideo(env, db, CreateVideo(post, ext));
    assert AddChildren(env, db, post, ext) == Synced(s.db, s.err.None?);
  }

  /** A photo post: the new photo rows belong to the new post and follow its photos in order; the
      loop stops at the first failing photo, and when the post is reported stored, every photo is in. */
  lemma PhotoPostFanOut(env: Env, parseDate: DateParser, db: Db, ext: Api.Post, status: string)
    requires !Settled(env, parseDate, db, ext) && ext.kind == "photo"
    ensures var r := SyncPost(env, parseDate, db, ext, status);
      var row := CreatePost(parseDate, ext).value.(status := status, id := db.lastPostId + 1);
      && db.photos <= r.db.photos && |r.db.photos| <= |db.photos| + |ext.photos|
      && PhotosFollow(db.photos, r.db.photos, row, ext.photos)
      && (r.ok ==> |r.db.photos| == |db.photos| + |ext.photos|)
  {
    var post := CreatePost(parseDate, ext).value;
    var added := InsertPost(env, db, post.(status := status));
    assert added.err.None?;
    var child := AddChildren(env, added.db, added.row, ext);
    assert child == AddPhotos(env, added.db, added.row, ext.photos);
    AddPhotosInOrder(env, added.db, added.row, ext.photos);
    assert !PostExists(env, db, IntToString(ext.id));
    assert SyncPost(env, parseDate, db, ext, status) == AfterInsert(env, added.db, added.row, ext);
  }

  // ---------------------------------------------------------------------------------------------
  // The call log

  /** The state a sync threads through: the store and every remote call made so far. */
  datatype World = World(db: Db, calls: seq<Api.Call>)

  /** The two walks of `Sync`: the posts of a blog, which are deleted remotely once stored, and the
      user's likes, which are unliked once stored. */
  datatype Flow = BlogFlow(blogName: string) | LikesFlow

  function Status(f: Flow): string {
    if f.BlogFlow? then "added" else "queued"
  }

  function FetchCall(f: Flow, q: Api.Query): Api.Call {
    match f
    case BlogFlow(b) => Api.BlogPostsCall(b, q)
    case LikesFlow => Api.UserLikesCall(q)
  }

  function FollowUp(f: Flow, p: Api.Post): Api.Call {
    match f
    case BlogFlow(b) => Api.PostDeleteCall(b, p.id)
    case LikesFlow => Api.UserUnlikeCall(p.id, p.reblogKey)
  }

  function Page(remote: Api.Remote, f: Flow, q: Api.Query): seq<Api.Post> {
    match f
    case BlogFlow(b) => remote.blogPosts(b, q).posts
    case LikesFlow => remote.userLikes(q).likedPosts
  }

  /** A request that reads a listing rather than changing something remotely. */
  predicate IsFetch(c: Api.Call) {
    c.BlogPostsCall? || c.UserLikesCall? || c.UserFollowingCall?
  }

  /** The listing requests of a log, in order. */
  function Fetches(calls: seq<Api.Call>): (r: seq<Api.Call>)
    ensures forall c :: c in r ==> IsFetch(c)
  {
    if calls == [] then []
    else Fetches(calls[..|calls| - 1]) + (if IsFetch(calls[|calls| - 1]) then [calls[|calls| - 1]] else [])
  }

  lemma FetchesSnoc(calls: seq<Api.Call>, c: Api.Call)
    ensures Fetches(calls + [c]) == Fetches(calls) + (if IsFetch(c) then [c] else [])
  {
    assert (calls + [c])[..|calls|] == calls;
  }

  /** A follow-up request, sent or not, adds nothing to the listing requests of a log. */
  lemma FollowUpNoFetch(calls: seq<Api.Call>, f: Flow, p: Api.Post, sent: bool)
    ensures Fetches(if sent then calls + [FollowUp(f, p)] else calls) == Fetches(calls)
  {
    FetchesSnoc(calls, FollowUp(f, p));
  }

  /** The listing requests of one walk, one per offset. */
  function FetchCalls(f: Flow, offsets: seq<int>): (r: seq<Api.Call>)
    ensures |r| == |offsets|
  {
    if offsets == [] then [] else [FetchCall(f, Api.Window(offsets[0], PageLimit))] + FetchCalls(f, offsets[1..])
  }

  /** The i-th listing request of a walk asks for the page at the i-th offset. */
  lemma {:induction false} FetchCallsAt(f: Flow, offsets: seq<int>)
    ensures forall i :: 0 <= i < |offsets| ==> FetchCalls(f, offsets)[i] == FetchCall(f, Api.Window(offsets[i], PageLimit))
  {
    if offsets != [] {
      FetchCallsAt(f, offsets[1..]);
      var r, rest := FetchCalls(f, offsets), FetchCalls(f, offsets[1..]);
      assert r == [FetchCall(f, Api.Window(offsets[0], PageLimit))] + rest;
      forall i | 1 <= i < |offsets| ensures r[i] == FetchCall(f, Api.Window(offsets[i], PageLimit)) {
        assert r[i] == rest[i - 1] && offsets[1..][i - 1] == offsets[i];
      }
    }
  }

  // ---------------------------------------------------------------------------------------------
  // Pagination (`syncBlogPosts`, `syncLikes`)

  /** One more page of a walk adds its listing request right after the log so far. */
  lemma FetchCallsStep(calls: seq<Api.Call>, f: Flow, offset: int, total: int)
    requires offset < total
    ensures calls + [FetchCall(f, Api.Window(offset, PageLimit))] + FetchCalls(f, Offsets(offset + PageLimit, total))
         == calls + FetchCalls(f, Offsets(offset, total))
  {
    OffsetsStep(offset, total);
  }

  lemma OffsetsStep(offset: int, total: int)
    requires offset < total
    ensures Offsets(offset, total) == [offset] + Offsets(offset + PageLimit, total)
    ensures Offsets(offset, total)[1..] == Offsets(offset + PageLimit, total)
  {
  }

  /** The offsets `for offset := 0; offset < total; offset += limit` visits, from `offset` on. */
  function Offsets(offset: int, total: int): seq<int>
    decreases total - offset
  {
    if offset >= total then [] else [offset] + Offsets(offset + PageLimit, total)
  }

  /** The loop visits `offset`, `offset + 20`, … strictly below `total`: ceil((total - offset) / 20)
      pages, and none when `total <= offset`. */
  lemma {:induction false} OffsetsAt(offset: int, total: int)
    ensures |Offsets(offset, total)| == if total <= offset then 0 else (total - offset + PageLimit - 1) / PageLimit
    ensures forall i :: 0 <= i < |Offsets(offset, total)| ==>
      Offsets(offset, total)[i] == offset + PageLimit * i && Offsets(offset, total)[i] < total
    decreases total - offset
  {
    if offset < total {
      OffsetsAt(offset + PageLimit, total);
      var all, rest := Offsets(offset, total), Offsets(offset + PageLimit, total);
      assert forall i :: 1 <= i < |all| ==> all[i] == rest[i - 1];
    }
  }

  /** The offsets a walk from 0 visits for a total of `n`. */
  lemma PageOffsets(n: int)
    ensures |Offsets(0, n)| == if n <= 0 then 0 else (n + 19) / 20
    ensures forall i :: 0 <= i < |Offsets(0, n)| ==> Offsets(0, n)[i] == 20 * i < n
  {
    OffsetsAt(0, n);
  }

  /** One post of a page: sync it with the flow's status and, when it was stored, make the flow's
      follow-up call for it. */
  function PostStep(env: Env, parseDate: DateParser, f: Flow, w: World, p: Api.Post): World {
    var s := SyncPost(env, parseDate, w.db, p, Status(f));
    World(s.db, if s.ok then w.calls + [FollowUp(f, p)] else w.calls)
  }

  /** The per-item loop of a page: sync each post with the flow's status and, when it was stored,
      make the flow's follow-up call for it. */
  function SyncItems(env: Env, parseDate: DateParser, f: Flow, w: World, items: seq<Api.Post>): (r: World)
    ensures w.db.posts <= r.db.posts
    ensures r.db.subscriptions == w.db.subscriptions && r.db.lastSubscriptionId == w.db.lastSubscriptionId
    ensures f.LikesFlow? ==> r.db.tags == w.db.tags && r.db.postsTags == w.db.postsTags
    ensures Valid(w.db) ==> Valid(r.db)
    decreases |items|
  {
    if items == [] then w
    else SyncItems(env, parseDate, f, PostStep(env, parseDate, f, w, items[0]), items[1..])
  }

  /** One turn of the per-item loop: the first post is synced and followed up, the rest is left. */
  lemma ItemsStep(env: Env, parseDate: DateParser, f: Flow, w: World, items: seq<Api.Post>, rest: seq<Api.Post>)
    requires items != [] && rest == items[1..]
    ensures SyncItems(env, parseDate, f, w, items) == SyncItems(env, parseDate, f, PostStep(env, parseDate, f, w, items[0]), rest)
  {
  }

  /** After the loop over a page, every post of the page is settled. */
  lemma {:induction false} ItemsSettle(env: Env, parseDate: DateParser, f: Flow, w: World, items: seq<Api.Post>)
    ensures forall p :: p in items ==> Settled(env, parseDate, SyncItems(env, parseDate, f, w, items).db, p)
    decreases |items|
  {
    if items != [] {
      var s := SyncPost(env, parseDate, w.db, items[0], Status(f));
      var next := World(s.db, if s.ok then w.calls + [FollowUp(f, items[0])] else w.calls);
      var r := SyncItems(env, parseDate, f, next, items[1..]);
      ItemsSettle(env, parseDate, f, next, items[1..]);
      SettledGrows(env, parseDate, s.db, r.db, items[0]);
      assert forall p :: p in items ==> p == items[0] || p in items[1..];
    }
  }

  /** The loop over a page makes follow-up calls only: no listing request. */
  lemma {:induction false} ItemsFetches(env: Env, parseDate: DateParser, f: Flow, w: World, items: seq<Api.Post>)
    ensures Fetches(SyncItems(env, parseDate, f, w, items).calls) == Fetches(w.calls)
    decreases |items|
  {
    if items != [] {
      var s := SyncPost(env, parseDate, w.db, items[0], Status(f));
      var next := World(s.db, if s.ok then w.calls + [FollowUp(f, items[0])] else w.calls);
      assert SyncItems(env, parseDate, f, w, items) == SyncItems(env, parseDate, f, next, items[1..]);
      FollowUpNoFetch(w.calls, f, items[0], s.ok);
      ItemsFetches(env, parseDate, f, next, items[1..]);
    }
  }

  /** The follow-up of every post of `items`, in order. */
  function FollowUps(f: Flow, items: seq<Api.Post>): (r: seq<Api.Call>)
    ensures |r| == |items|
  {
    if items == [] then [] else [FollowUp(f, items[0])] + FollowUps(f, items[1..])
  }

  /** The posts of `items` whose flag in `stored` is set, in page order. */
  function Kept(items: seq<Api.Post>, stored: seq<bool>): (r: seq<Api.Post>)
    requires |stored| == |items|
    ensures |r| <= |items|
  {
    if items == [] then [] else (if stored[0] then [items[0]] else []) + Kept(items[1..], stored[1..])
  }

  /** For each post of `items`, whether `syncBlogPost` returns true for it on the store the loop has
      built by that post's turn. */
  function StoredAt(env: Env, parseDate: DateParser, f: Flow, w: World, items: seq<Api.Post>): (r: seq<bool>)
    ensures |r| == |items|
  {
    seq(|items|, k requires 0 <= k < |items| => Stores(env, parseDate, f, SyncItems(env, parseDate, f, w, items[..k]), items[k]))
  }

  /** Whether `syncBlogPost` returns true for `p` on the store of `w`. */
  predicate Stores(env: Env, parseDate: DateParser, f: Flow, w: World, p: Api.Post) {
    SyncPost(env, parseDate, w.db, p, Status(f)).ok
  }

  /** The first post's turn sees the store as it is; every later turn sees the store the loop over
      the rest has built after the first post. */
  lemma StoredAtStep(env: Env, parseDate: DateParser, f: Flow, w: World, items: seq<Api.Post>)
    requires items != []
    ensures StoredAt(env, parseDate, f, w, items)[0] == Stores(env, parseDate, f, w, items[0])
    ensures StoredAt(env, parseDate, f, w, items)[1..]
         == StoredAt(env, parseDate, f, PostStep(env, parseDate, f, w, items[0]), items[1..])
  {
    var next := PostStep(env, parseDate, f, w, items[0]);
    var all, rest := StoredAt(env, parseDate, f, w, items), StoredAt(env, parseDate, f, next, items[1..]);
    assert items[..0] == [];
    forall k | 0 <= k < |rest| ensures all[1..][k] == rest[k] {
      StoredAtShift(env, parseDate, f, w, items, k);
    }
  }

  lemma StoredAtShift(env: Env, parseDate: DateParser, f: Flow, w: World, items: seq<Api.Post>, k: nat)
    requires k + 1 < |items|
    ensures StoredAt(env, parseDate, f, w, items)[k + 1]
         == StoredAt(env, parseDate, f, PostStep(env, parseDate, f, w, items[0]), items[1..])[k]
  {
    var next := PostStep(env, parseDate, f, w, items[0]);
    var before, after := items[..k + 1], items[1..][..k];
    assert before[0] == items[0] && before[1..] == after;
    ItemsStep(env, parseDate, f, w, before, after);
    var seen := SyncItems(env, parseDate, f, w, before);
    assert seen == SyncItems(env, parseDate, f, next, after);
    assert StoredAt(env, parseDate, f, w, items)[k + 1] == Stores(env, parseDate, f, seen, items[k + 1]);
    assert StoredAt(env, parseDate, f, next, items[1..])[k] == Stores(env, parseDate, f, seen, items[1..][k]);
    assert items[k + 1] == items[1..][k];
  }

  /** The loop over a page only appends to the log, and what it appends is the follow-up (a delete
      of a blog post, an unlike of a like) of exactly the posts `syncBlogPost` stored, one each, in
      page order. */
  lemma {:induction false} ItemsFollowUps(env: Env, parseDate: DateParser, f: Flow, w: World, items: seq<Api.Post>)
    ensures SyncItems(env, parseDate, f, w, items).calls
         == w.calls + FollowUps(f, Kept(items, StoredAt(env, parseDate, f, w, items)))
    decreases |items|
  {
    if items != [] {
      var next := PostStep(env, parseDate, f, w, items[0]);
      var st := StoredAt(env, parseDate, f, w, items);
      ItemsStep(env, parseDate, f, w, items, items[1..]);
      ItemsFollowUps(env, parseDate, f, next, items[1..]);
      StoredAtStep(env, parseDate, f, w, items);
      var s := SyncPost(env, parseDate, w.db, items[0], Status(f));
      assert next.calls == if s.ok then w.calls + [FollowUp(f, items[0])] else w.calls;
      KeptFollowUps(f, items, st, w.calls, next.calls, SyncItems(env, parseDate, f, next, items[1..]).calls);
    }
  }

  lemma {:induction false} KeptFollowUps(f: Flow, items: seq<Api.Post>, stored: seq<bool>,
                      calls0: seq<Api.Call>, calls1: seq<Api.Call>, calls2: seq<Api.Call>)
    requires items != [] && |stored| == |items|
    requires calls1 == if stored[0] then calls0 + [FollowUp(f, items[0])] else calls0
    requires calls2 == calls1 + FollowUps(f, Kept(items[1..], stored[1..]))
    ensures calls2 == calls0 + FollowUps(f, Kept(items, stored))
  {
    var tail := Kept(items[1..], stored[1..]);
    if stored[0] {
      calc {
        calls2;
        (calls0 + [FollowUp(f, items[0])]) + FollowUps(f, tail);
        calls0 + ([FollowUp(f, items[0])] + FollowUps(f, tail));
        { FollowUpsCons(f, items[0], tail); }
        calls0 + FollowUps(f, [items[0]] + tail);
      }
    } else {
      assert Kept(items, stored) == tail;
    }
  }

  lemma FollowUpsCons(f: Flow, p: Api.Post, items: seq<Api.Post>)
    ensures FollowUps(f, [p] + items) == [FollowUp(f, p)] + FollowUps(f, items)
  {
    assert ([p] + items)[1..] == items;
  }

  /** Every post of every page from `offset` on is settled in `db`. */
  predicate PagesSettled(env: Env, parseDate: DateParser, remote: Api.Remote, f: Flow, db: Db, offset: int, total: int)
    decreases total - offset
  {
    offset < total ==>
      && (forall p :: p in Page(remote, f, Api.Window(offset, PageLimit)) ==> Settled(env, parseDate, db, p))
      && PagesSettled(env, parseDate, remote, f, db, offset + PageLimit, total)
  }

  lemma {:induction false} PagesSettledGrows(env: Env, parseDate: DateParser, remote: Api.Remote, f: Flow,
                                             db: Db, db': Db, offset: int, total: int)
    requires PagesSettled(env, parseDate, remote, f, db, offset, total) && db.posts <= db'.posts
    ensures PagesSettled(env, parseDate, remote, f, db', offset, total)
    decreases total - offset
  {
    if offset < total {
      forall p | p in Page(remote, f, Api.Window(offset, PageLimit))
        ensures Settled(env, parseDate, db', p)
      {
        SettledGrows(env, parseDate, db, db', p);
      }
      PagesSettledGrows(env, parseDate, remote, f, db, db', offset + PageLimit, total);
    }
  }

  /** The outer loop of `syncBlogPosts` and `syncLikes`: fetch the page at each offset, then sync
      its items. */
  function Walk(env: Env, parseDate: DateParser, remote: Api.Remote, f: Flow, w: World, offset: int, total: int): (r: World)
    ensures w.db.posts <= r.db.posts
    ensures r.db.subscriptions == w.db.subscriptions && r.db.lastSubscriptionId == w.db.lastSubscriptionId
    ensures Valid(w.db) ==> Valid(r.db)
    decreases total - offset
  {
    if offset >= total then w
    else Walk(env, parseDate, remote, f, Turn(env, parseDate, remote, f, w, offset), offset + PageLimit, total)
  }

  /** One turn of the offset loop: fetch the page at `offset`, then sync its items. */
  function Turn(env: Env, parseDate: DateParser, remote: Api.Remote, f: Flow, w: World, offset: int): World {
    var q := Api.Window(offset, PageLimit);
    SyncItems(env, parseDate, f, World(w.db, w.calls + [FetchCall(f, q)]), Page(remote, f, q))
  }

  /** The offset loop with the work of one turn left as a parameter: `Walk` and `SubsWalk` are
      both of this shape. */
  function Paged(turn: (World, int) -> World, w: World, offset: int, total: int): World
    decreases total - offset
  {
    if offset >= total then w else Paged(turn, turn(w, offset), offset + PageLimit, total)
  }

  /** Paging with a turn that agrees with `Turn` is `Walk`. */
  lemma {:induction false} PagedWalk(env: Env, parseDate: DateParser, remote: Api.Remote, f: Flow,
                                     turn: (World, int) -> World, w: World, offset: int, total: int)
    requires forall v, o {:trigger Turn(env, parseDate, remote, f, v, o)} :: turn(v, o) == Turn(env, parseDate, remote, f, v, o)
    ensures Paged(turn, w, offset, total) == Walk(env, parseDate, remote, f, w, offset, total)
    decreases total - offset
  {
    if offset < total {
      var next := Turn(env, parseDate, remote, f, w, offset);
      PagedWalk(env, parseDate, remote, f, turn, next, offset + PageLimit, total);
    }
  }

  /** A walk makes exactly one listing request per offset, in offset order: the follow-up calls
      are the only other calls it makes. */
  lemma {:induction false} WalkFetches(env: Env, parseDate: DateParser, remote: Api.Remote, f: Flow, w: World, offset: int, total: int)
    ensures Fetches(Walk(env, parseDate, remote, f, w, offset, total).calls) == Fetches(w.calls) + FetchCalls(f, Offsets(offset, total))
    decreases total - offset
  {
    if offset < total {
      var q := Api.Window(offset, PageLimit);
      var fetched := World(w.db, w.calls + [FetchCall(f, q)]);
      FetchesSnoc(w.calls, FetchCall(f, q));
      var page := SyncItems(env, parseDate, f, fetched, Page(remote, f, q));
      ItemsFetches(env, parseDate, f, fetched, Page(remote, f, q));
      WalkFetches(env, parseDate, remote, f, page, offset + PageLimit, total);
      FetchCallsStep(Fetches(w.calls), f, offset, total);
    }
  }

  /** After a walk every post on its pages is settled: a later walk over the same pages skips them all. */
  lemma {:induction false} WalkSettles(env: Env, parseDate: DateParser, remote: Api.Remote, f: Flow, w: World, offset: int, total: int)
    ensures PagesSettled(env, parseDate, remote, f, Walk(env, parseDate, remote, f, w, offset, total).db, offset, total)
    decreases total - offset
  {
    if offset < total {
      var q := Api.Window(offset, PageLimit);
      var fetched := World(w.db, w.calls + [FetchCall(f, q)]);
      var items := Page(remote, f, q);
      var page := SyncItems(env, parseDate, f, fetched, items);
      var r := Walk(env, parseDate, remote, f, page, offset + PageLimit, total);
      WalkSettles(env, parseDate, remote, f, page, offset + PageLimit, total);
      ItemsSettle(env, parseDate, f, fetched, items);
      forall p | p in items
        ensures Settled(env, parseDate, r.db, p)
      {
        SettledGrows(env, parseDate, page.db, r.db, p);
      }
    }
  }

  /** `Sync`: read the post total with one probe, walk the blog's posts, then read the like total
      with one probe and walk the likes. */
  function SyncContent(env: Env, parseDate: DateParser, remote: Api.Remote, blogName: string, w: World): (r: World)
    ensures w.db.posts <= r.db.posts
    ensures r.db.subscriptions == w.db.subscriptions && r.db.lastSubscriptionId == w.db.lastSubscriptionId
    ensures Valid(w.db) ==> Valid(r.db)
  {
    var totalPosts := remote.blogPosts(blogName, Api.Probe).totalPosts;
    var probed := World(w.db, w.calls + [Api.BlogPostsCall(blogName, Api.Probe)]);
    var posted := Walk(env, parseDate, remote, BlogFlow(blogName), probed, 0, totalPosts);
    var totalLikes := remote.userLikes(Api.Probe).likedCount;
    Walk(env, parseDate, remote, LikesFlow, World(posted.db, posted.calls + [Api.UserLikesCall(Api.Probe)]), 0, totalLikes)
  }

  /** The listing requests of `Sync`: the post probe, one page per offset below the post total, the
      like probe, one page per offset below the like total. Each total is read once, before its loop. */
  lemma SyncFetches(env: Env, parseDate: DateParser, remote: Api.Remote, blogName: string, w: World)
    ensures Fetches(SyncContent(env, parseDate, remote, blogName, w).calls) == Fetches(w.calls)
      + [Api.BlogPostsCall(blogName, Api.Probe)]
      + FetchCalls(BlogFlow(blogName), Offsets(0, remote.blogPosts(blogName, Api.Probe).totalPosts))
      + [Api.UserLikesCall(Api.Probe)]
      + FetchCalls(LikesFlow, Offsets(0, remote.userLikes(Api.Probe).likedCount))
  {
    var totalPosts := remote.blogPosts(blogName, Api.Probe).totalPosts;
    var probed := World(w.db, w.calls + [Api.BlogPostsCall(blogName, Api.Probe)]);
    FetchesSnoc(w.calls, Api.BlogPostsCall(blogName, Api.Probe));
    WalkFetches(env, parseDate, remote, BlogFlow(blogName), probed, 0, totalPosts);
    var posted := Walk(env, parseDate, remote, BlogFlow(blogName), probed, 0, totalPosts);
    var totalLikes := remote.userLikes(Api.Probe).likedCount;
    var probedLikes := World(posted.db, posted.calls + [Api.UserLikesCall(Api.Probe)]);
    FetchesSnoc(posted.calls, Api.UserLikesCall(Api.Probe));
    WalkFetches(env, parseDate, remote, LikesFlow, probedLikes, 0, totalLikes);
  }

  // ---------------------------------------------------------------------------------------------
  // Idempotence

  lemma {:induction false} SettledItemsUnchanged(env: Env, parseDate: DateParser, f: Flow, w: World, items: seq<Api.Post>)
    requires forall p :: p in items ==> Settled(env, parseDate, w.db, p)
    ensures SyncItems(env, parseDate, f, w, items) == w
    decreases |items|
  {
    if items != [] {
      assert items[0] in items;
      assert forall p :: p in items[1..] ==> p in items;
      SettledItemsUnchanged(env, parseDate, f, w, items[1..]);
    }
  }

  /** A walk over pages whose posts are all settled changes no table and makes no call but its
      listing requests. */
  lemma {:induction false} SettledWalkOnlyFetches(env: Env, parseDate: DateParser, remote: Api.Remote, f: Flow,
                                                  w: World, offset: int, total: int)
    requires PagesSettled(env, parseDate, remote, f, w.db, offset, total)
    ensures Walk(env, parseDate, remote, f, w, offset, total) == World(w.db, w.calls + FetchCalls(f, Offsets(offset, total)))
    decreases total - offset
  {
    if offset < total {
      var q := Api.Window(offset, PageLimit);
      var fetched := World(w.db, w.calls + [FetchCall(f, q)]);
      assert Walk(env, parseDate, remote, f, w, offset, total) == Walk(env, parseDate, remote, f, fetched, offset + PageLimit, total) by {
        SettledItemsUnchanged(env, parseDate, f, fetched, Page(remote, f, q));
      }
      SettledWalkOnlyFetches(env, parseDate, remote, f, fetched, offset + PageLimit, total);
      FetchCallsStep(w.calls, f, offset, total);
    }
  }

  /** Running `Sync` again against the same remote answers changes no table and makes only the two
      probes and the listing requests: every post it sees was stored (or is refused the same way) by
      the first run, so nothing is deleted or unliked a second time. */
  lemma SyncTwice(env: Env, parseDate: DateParser, remote: Api.Remote, blogName: string, w: World, calls: seq<Api.Call>)
    ensures var first := SyncContent(env, parseDate, remote, blogName, w);
      var second := SyncContent(env, parseDate, remote, blogName, World(first.db, calls));
      && second.db == first.db
      && second.calls == calls + [Api.BlogPostsCall(blogName, Api.Probe)]
         + FetchCalls(BlogFlow(blogName), Offsets(0, remote.blogPosts(blogName, Api.Probe).totalPosts))
         + [Api.UserLikesCall(Api.Probe)]
         + FetchCalls(LikesFlow, Offsets(0, remote.userLikes(Api.Probe).likedCount))
  {
    var totalPosts := remote.blogPosts(blogName, Api.Probe).totalPosts;
    var totalLikes := remote.userLikes(Api.Probe).likedCount;
    var probed := World(w.db, w.calls + [Api.BlogPostsCall(blogName, Api.Probe)]);
    var posted := Walk(env, parseDate, remote, BlogFlow(blogName), probed, 0, totalPosts);
    var probedLikes := World(posted.db, posted.calls + [Api.UserLikesCall(Api.Probe)]);
    var first := Walk(env, parseDate, remote, LikesFlow, probedLikes, 0, totalLikes);
    WalkSettles(env, parseDate, remote, BlogFlow(blogName), probed, 0, totalPosts);
    WalkSettles(env, parseDate, remote, LikesFlow, probedLikes, 0, totalLikes);
    PagesSettledGrows(env, parseDate, remote, BlogFlow(blogName), posted.db, first.db, 0, totalPosts);
    var again := World(first.db, calls + [Api.BlogPostsCall(blogName, Api.Probe)]);
    SettledWalkOnlyFetches(env, parseDate, remote, BlogFlow(blogName), again, 0, totalPosts);
    var blogCalls := again.calls + FetchCalls(BlogFlow(blogName), Offsets(0, totalPosts));
    SettledWalkOnlyFetches(env, parseDate, remote, LikesFlow, World(first.db, blogCalls + [Api.UserLikesCall(Api.Probe)]), 0, totalLikes);
  }

  // ---------------------------------------------------------------------------------------------
  // Importing the follow list (`SubsDown`)

  /** The subscription row `SubsDown` builds for a followed blog: source "tumblr", the blog's
      fields, and no id yet. */
  function SubscriptionOf(b: Api.Blog): (r: Subscription)
    ensures r.id == 0 && r.source == "tumblr"
    ensures r.blogName == b.name && r.url == b.url && r.description == b.description && r.title == b.title
  {
    Subscription(0, b.name, "tumblr", b.url, b.description, b.title)
  }

  /** The rows the inserts of `blogs` produce when the first id handed out is `first`. */
  function Imported(first: nat, blogs: seq<Api.Blog>): (r: seq<Subscription>)
    ensures |r| == |blogs|
    decreases |blogs|
  {
    if blogs == [] then [] else [SubscriptionOf(blogs[0]).(id := first)] + Imported(first + 1, blogs[1..])
  }

  lemma {:induction false} ImportedAt(first: nat, blogs: seq<Api.Blog>)
    ensures forall i :: 0 <= i < |blogs| ==> Imported(first, blogs)[i] == SubscriptionOf(blogs[i]).(id := first + i)
    decreases |blogs|
  {
    if blogs != [] {
      ImportedAt(first + 1, blogs[1..]);
      assert forall i :: 1 <= i < |blogs| ==> Imported(first, blogs)[i] == Imported(first + 1, blogs[1..])[i - 1];
    }
  }

  lemma {:induction false} ImportedConcat(first: nat, a: seq<Api.Blog>, b: seq<Api.Blog>)
    ensures Imported(first, a + b) == Imported(first, a) + Imported(first + |a|, b)
    decreases |a|
  {
    if a != [] {
      assert (a + b)[1..] == a[1..] + b;
      ImportedConcat(first + 1, a[1..], b);
    } else {
      assert a + b == b;
    }
  }

  /** Two batches of inserts in a row are one batch of their concatenation. */
  lemma ImportsStep(rows0: seq<Subscription>, last0: nat, a: seq<Api.Blog>, b: seq<Api.Blog>,
                    rows1: seq<Subscription>, last1: nat, rows2: seq<Subscription>, last2: nat)
    requires rows1 == rows0 + Imported(last0 + 1, a) && last1 == last0 + |a|
    requires rows2 == rows1 + Imported(last1 + 1, b) && last2 == last1 + |b|
    ensures rows2 == rows0 + Imported(last0 + 1, a + b) && last2 == last0 + |a + b|
  {
    ImportedConcat(last0 + 1, a, b);
  }

  /** The inner loop of `SubsDown`: `AddSubscription` for each blog of a page, errors ignored. */
  function AddBlogs(env: Env, db: Db, blogs: seq<Api.Blog>): (r: Db)
    ensures r == db.(subscriptions := r.subscriptions, lastSubscriptionId := r.lastSubscriptionId)
    ensures Subscriptions in env.unavailable ==> r == db
    ensures Subscriptions !in env.unavailable ==>
      && r.subscriptions == db.subscriptions + Imported(db.lastSubscriptionId + 1, blogs)
      && r.lastSubscriptionId == db.lastSubscriptionId + |blogs|
    ensures Valid(db) ==> Valid(r)
    decreases |blogs|
  {
    if blogs == [] then db
    else
      var s := InsertSubscription(env, db, SubscriptionOf(blogs[0]));
      var r := AddBlogs(env, s.db, blogs[1..]);
      assert Subscriptions !in env.unavailable ==>
        r.subscriptions == db.subscriptions + Imported(db.lastSubscriptionId + 1, blogs) by {
        if Subscriptions !in env.unavailable {
          assert s.db.subscriptions == db.subscriptions + [SubscriptionOf(blogs[0]).(id := db.lastSubscriptionId + 1)];
          assert Imported(db.lastSubscriptionId + 1, blogs)
              == [SubscriptionOf(blogs[0]).(id := db.lastSubscriptionId + 1)] + Imported(db.lastSubscriptionId + 2, blogs[1..]);
        }
      }
      r
  }

  /** The blogs on the pages from `offset` on, in page order. */
  function Followed(remote: Api.Remote, offset: int, total: int): seq<Api.Blog>
    decreases total - offset
  {
    if offset >= total then []
    else remote.userFollowing(Api.Window(offset, PageLimit)).blogs + Followed(remote, offset + PageLimit, total)
  }

  /** The listing requests of the `SubsDown` loop, one per offset. */
  function FollowingCalls(offsets: seq<int>): (r: seq<Api.Call>)
    ensures |r| == |offsets|
  {
    if offsets == [] then [] else [Api.UserFollowingCall(Api.Window(offsets[0], PageLimit))] + FollowingCalls(offsets[1..])
  }

  lemma {:induction false} FollowingCallsAt(offsets: seq<int>)
    ensures forall i :: 0 <= i < |offsets| ==> FollowingCalls(offsets)[i] == Api.UserFollowingCall(Api.Window(offsets[i], PageLimit))
  {
    if offsets != [] {
      FollowingCallsAt(offsets[1..]);
      var r, rest := FollowingCalls(offsets), FollowingCalls(offsets[1..]);
      assert r == [Api.UserFollowingCall(Api.Window(offsets[0], PageLimit))] + rest;
      forall i | 1 <= i < |offsets| ensures r[i] == Api.UserFollowingCall(Api.Window(offsets[i], PageLimit)) {
        assert r[i] == rest[i - 1] && offsets[1..][i - 1] == offsets[i];
      }
    }
  }

  lemma FollowingCallsStep(calls: seq<Api.Call>, offset: int, total: int)
    requires offset < total
    ensures calls + [Api.UserFollowingCall(Api.Window(offset, PageLimit))] + FollowingCalls(Offsets(offset + PageLimit, total))
         == calls + FollowingCalls(Offsets(offset, total))
  {
    OffsetsStep(offset, total);
  }

  /** The offset loop of `SubsDown`. */
  function SubsWalk(env: Env, remote: Api.Remote, w: World, offset: int, total: int): (r: World)
    ensures r.db == w.db.(subscriptions := r.db.subscriptions, lastSubscriptionId := r.db.lastSubscriptionId)
    ensures r.calls == w.calls + FollowingCalls(Offsets(offset, total))
    ensures Subscriptions in env.unavailable ==> r.db == w.db
    ensures Valid(w.db) ==> Valid(r.db)
    decreases total - offset
  {
    if offset >= total then w
    else
      var q := Api.Window(offset, PageLimit);
      FollowingCallsStep(w.calls, offset, total);
      SubsWalk(env, remote, World(AddBlogs(env, w.db, remote.userFollowing(q).blogs), w.calls + [Api.UserFollowingCall(q)]),
               offset + PageLimit, total)
  }

  /** One turn of the offset loop of `SubsDown`: fetch the page at `offset` and import its blogs. */
  function SubsTurn(env: Env, remote: Api.Remote, w: World, offset: int): World {
    var q := Api.Window(offset, PageLimit);
    World(AddBlogs(env, w.db, remote.userFollowing(q).blogs), w.calls + [Api.UserFollowingCall(q)])
  }

  /** Paging with a turn that agrees with `SubsTurn` is `SubsWalk`. */
  lemma {:induction false} PagedSubsWalk(env: Env, remote: Api.Remote, turn: (World, int) -> World,
                                         w: World, offset: int, total: int)
    requires forall v, o {:trigger SubsTurn(env, remote, v, o)} :: turn(v, o) == SubsTurn(env, remote, v, o)
    ensures Paged(turn, w, offset, total) == SubsWalk(env, remote, w, offset, total)
    decreases total - offset
  {
    if offset < total {
      var next := SubsTurn(env, remote, w, offset);
      PagedSubsWalk(env, remote, turn, next, offset + PageLimit, total);
    }
  }

  lemma FollowedStep(remote: Api.Remote, offset: int, total: int)
    requires offset < total
    ensures Followed(remote, offset, total)
         == remote.userFollowing(Api.Window(offset, PageLimit)).blogs + Followed(remote, offset + PageLimit, total)
  {
  }

  /** One turn from `v` at offset `o` to `v'` appends the rows of the blogs on that page. */
  ghost predicate ImportsPage(remote: Api.Remote, v: World, o: int, v': World) {
    var blogs := remote.userFollowing(Api.Window(o, PageLimit)).blogs;
    && v'.db.subscriptions == v.db.subscriptions + Imported(v.db.lastSubscriptionId + 1, blogs)
    && v'.db.lastSubscriptionId == v.db.lastSubscriptionId + |blogs|
  }

  /** Paging with turns that each append their page's rows appends the rows of every page. */
  lemma {:induction false} PagedImports(remote: Api.Remote, turn: (World, int) -> World, w: World, offset: int, total: int)
    requires forall v, o :: ImportsPage(remote, v, o, turn(v, o))
    ensures var r := Paged(turn, w, offset, total);
      && r.db.subscriptions == w.db.subscriptions + Imported(w.db.lastSubscriptionId + 1, Followed(remote, offset, total))
      && r.db.lastSubscriptionId == w.db.lastSubscriptionId + |Followed(remote, offset, total)|
    decreases total - offset
  {
    if offset < total {
      var next := turn(w, offset);
      var r := Paged(turn, next, offset + PageLimit, total);
      assert ImportsPage(remote, w, offset, next);
      PagedImports(remote, turn, next, offset + PageLimit, total);
      FollowedStep(remote, offset, total);
      ImportsStep(w.db.subscriptions, w.db.lastSubscriptionId, remote.userFollowing(Api.Window(offset, PageLimit)).blogs,
                  Followed(remote, offset + PageLimit, total), next.db.subscriptions, next.db.lastSubscriptionId,
                  r.db.subscriptions, r.db.lastSubscriptionId);
    }
  }

  /** The loop appends the rows of the followed blogs, in page order, under fresh ids. */
  lemma SubsWalkImports(env: Env, remote: Api.Remote, w: World, offset: int, total: int)
    requires Subscriptions !in env.unavailable
    ensures var r := SubsWalk(env, remote, w, offset, total);
      && r.db.subscriptions == w.db.subscriptions + Imported(w.db.lastSubscriptionId + 1, Followed(remote, offset, total))
      && r.db.lastSubscriptionId == w.db.lastSubscriptionId + |Followed(remote, offset, total)|
  {
    var turn := (v: World, o: int) => SubsTurn(env, remote, v, o);
    PagedSubsWalk(env, remote, turn, w, offset, total);
    PagedImports(remote, turn, w, offset, total);
  }

  /** `SubsDown`: read the total with one probe, delete every subscription, then import the
      followed blogs page by page. */
  function SubsDownSpec(env: Env, remote: Api.Remote, w: World): (r: World)
    ensures r.db == w.db.(subscriptions := r.db.subscriptions, lastSubscriptionId := r.db.lastSubscriptionId)
    ensures r.calls == w.calls + [Api.UserFollowingCall(Api.Probe)]
      + FollowingCalls(Offsets(0, remote.userFollowing(Api.Probe).totalBlogs))
    ensures Subscriptions in env.unavailable ==> r.db == w.db
    ensures Subscriptions !in env.unavailable ==>
      var blogs := Followed(remote, 0, remote.userFollowing(Api.Probe).totalBlogs);
      && r.db.subscriptions == Imported(w.db.lastSubscriptionId + 1, blogs)
      && r.db.lastSubscriptionId == w.db.lastSubscriptionId + |blogs|
    ensures Valid(w.db) ==> Valid(r.db)
  {
    var total := remote.userFollowing(Api.Probe).totalBlogs;
    var cleared := World(RemoveAllSubscriptions(env, w.db).db, w.calls + [Api.UserFollowingCall(Api.Probe)]);
    if Subscriptions !in env.unavailable then
      SubsWalkImports(env, remote, cleared, 0, total);
      SubsWalk(env, remote, cleared, 0, total)
    else
      SubsWalk(env, remote, cleared, 0, total)
  }

  /** After `SubsDown` the table holds exactly one row per followed blog, in page order, each
      marked as coming from Tumblr, and none of the rows that were there before. */
  lemma SubsDownReplaces(env: Env, remote: Api.Remote, w: World)
    requires Valid(w.db) && Subscriptions !in env.unavailable
    ensures var r := SubsDownSpec(env, remote, w);
      var blogs := Followed(remote, 0, remote.userFollowing(Api.Probe).totalBlogs);
      && |r.db.subscriptions| == |blogs|
      && (forall i :: 0 <= i < |blogs| ==>
            r.db.subscriptions[i] == Subscription(w.db.lastSubscriptionId + 1 + i, blogs[i].name, "tumblr",
                                                  blogs[i].url, blogs[i].description, blogs[i].title))
      && (forall s :: s in w.db.subscriptions ==> s !in r.db.subscriptions)
  {
    var blogs := Followed(remote, 0, remote.userFollowing(Api.Probe).totalBlogs);
    FreshRowsReplace(w.db.subscriptions, w.db.lastSubscriptionId, SubsDownSpec(env, remote, w).db.subscriptions, blogs);
  }

  /** Rows imported under ids past the counter of a numbered table are none of its rows. */
  lemma FreshRowsReplace(before: seq<Subscription>, last: nat, rows: seq<Subscription>, blogs: seq<Api.Blog>)
    requires Numbered(before, SubscriptionId, last) && rows == Imported(last + 1, blogs)
    ensures |rows| == |blogs|
    ensures forall i :: 0 <= i < |blogs| ==>
      rows[i] == Subscription(last + 1 + i, blogs[i].name, "tumblr", blogs[i].url, blogs[i].description, blogs[i].title)
    ensures forall s :: s in before ==> s !in rows
  {
    ImportedAt(last + 1, blogs);
    forall s | s in before
      ensures s !in rows
    {
      var i :| 0 <= i < |before| && before[i] == s;
      assert SubscriptionId(before[i]) <= last;
    }
  }

  // ---------------------------------------------------------------------------------------------
  // Exporting the follow list (`SubsUp`)

  /** One `UserFollow` per subscription, with its URL. */
  function FollowCalls(rows: seq<Subscription>): (r: seq<Api.Call>)
    ensures |r| == |rows|
  {
    if rows == [] then [] else FollowCalls(rows[..|rows| - 1]) + [Api.UserFollowCall(rows[|rows| - 1].url)]
  }

  /** The follows go out in list order, one per stored subscription. */
  lemma {:induction false} FollowCallsInOrder(rows: seq<Subscription>)
    ensures forall i :: 0 <= i < |rows| ==> FollowCalls(rows)[i] == Api.UserFollowCall(rows[i].url)
  {
    if rows != [] {
      FollowCallsInOrder(rows[..|rows| - 1]);
    }
  }
}
