/** `mediaRepo` and `mediaTransaction` as objects that change in place: the repository holds one
    field per table and per AUTOINCREMENT counter, the transaction holds its one `err` field, and every
    method is proved to leave the store the way the matching function of `Media` says. */
module MediaRepo {

  import opened Wrappers
  import opened Media
  import RequestUri

  class Repository {
    const env: Env
    var posts: seq<Post>
    var photos: seq<Photo>
    var videos: seq<Video>
    var texts: seq<Text>
    var links: seq<Link>
    var tags: seq<Tag>
    var postsTags: seq<PostTag>
    var subscriptions: seq<Subscription>
    var lastPostId: nat
    var lastPhotoId: nat
    var lastVideoId: nat
    var lastTextId: nat
    var lastLinkId: nat
    var lastTagId: nat
    var lastSubscriptionId: nat
    var downloads: seq<DownloadTask>

    /** The store the fields hold. */
    function Snapshot(): Db
      reads this
    {
      Db(posts, photos, videos, texts, links, tags, postsTags, subscriptions,
         lastPostId, lastPhotoId, lastVideoId, lastTextId, lastLinkId, lastTagId, lastSubscriptionId,
         downloads)
    }

    /** `NewRepository`: the tables right after the schema is created. */
    constructor (env: Env)
      ensures this.env == env && Snapshot() == EmptyDb()
    {
      this.env := env;
      posts, photos, videos, texts, links, tags, postsTags, subscriptions := [], [], [], [], [], [], [], [];
      lastPostId, lastPhotoId, lastVideoId, lastTextId, lastLinkId, lastTagId, lastSubscriptionId := 0, 0, 0, 0, 0, 0, 0;
      downloads := [];
    }

    method PostExistsWithExternalID(externalId: string) returns (r: bool)
      ensures r == PostExists(env, Snapshot(), externalId)
      ensures r <==> Posts !in env.unavailable && exists i :: 0 <= i < |posts| && posts[i].externalId == externalId
    {
      r := Posts !in env.unavailable && exists i :: 0 <= i < |posts| && posts[i].externalId == externalId;
    }

    method AddPost(post: Post) returns (err: Option<Error>, saved: Post)
      modifies this
      ensures var s := InsertPost(env, old(Snapshot()), post); Snapshot() == s.db && saved == s.row && err == s.err
    {
      if Posts in env.unavailable {
        return Some(StoreFailure(Posts)), post;
      }
      if exists i :: 0 <= i < |posts| && posts[i].externalId == post.externalId {
        return Some(UniqueViolation("posts.external_id")), post;
      }
      saved := post.(id := lastPostId + 1);
      posts := posts + [saved];
      lastPostId := saved.id;
      err := None;
    }

    method AddLink(link: Link) returns (err: Option<Error>, saved: Link)
      modifies this
      ensures var s := InsertLink(env, old(Snapshot()), link); Snapshot() == s.db && saved == s.row && err == s.err
    {
      if Links in env.unavailable {
        return Some(StoreFailure(Links)), link;
      }
      saved := link.(id := lastLinkId + 1);
      links := links + [saved];
      lastLinkId := saved.id;
      err := None;
    }

    method AddText(text: Text) returns (err: Option<Error>, saved: Text)
      modifies this
      ensures var s := InsertText(env, old(Snapshot()), text); Snapshot() == s.db && saved == s.row && err == s.err
    {
      if Texts in env.unavailable {
        return Some(StoreFailure(Texts)), text;
      }
      saved := text.(id := lastTextId + 1);
      texts := texts + [saved];
      lastTextId := saved.id;
      err := None;
    }

    method AddTag(tag: Tag) returns (err: Option<Error>, saved: Tag)
      modifies this
      ensures var s := InsertTag(env, old(Snapshot()), tag); Snapshot() == s.db && saved == s.row && err == s.err
    {
      if Tags in env.unavailable {
        return Some(StoreFailure(Tags)), tag;
      }
      if exists i :: 0 <= i < |tags| && tags[i].name == tag.name {
        return Some(UniqueViolation("tags.name")), tag;
      }
      saved := tag.(id := lastTagId + 1);
      tags := tags + [saved];
      lastTagId := saved.id;
      err := None;
    }

    /** `findTag`: the tag and no error, or an empty tag and the error (`sql.ErrNoRows` when the name
        is not stored). */
    method FindTagByName(name: string) returns (tag: Tag, err: Option<Error>)
      ensures FindTag(env, Snapshot(), name).Some? ==> tag == FindTag(env, Snapshot(), name).value && err.None?
      ensures FindTag(env, Snapshot(), name).None? ==> tag == Tag(0, "") && err.Some?
    {
      if Tags in env.unavailable {
        return Tag(0, ""), Some(StoreFailure(Tags));
      }
      var found := FirstTagNamed(tags, name);
      if found.None? {
        return Tag(0, ""), Some(NoRows);
      }
      return found.value, None;
    }

    /** The `posts_tags` insert of `AddTagToPost`. */
    method AddPostTag(postId: nat, tagId: nat) returns (err: Option<Error>)
      modifies this
      ensures var s := InsertPostTag(env, old(Snapshot()), postId, tagId); Snapshot() == s.db && err == s.err
    {
      if PostsTags in env.unavailable {
        return Some(StoreFailure(PostsTags));
      }
      if PostTag(postId, tagId) in postsTags {
        return Some(UniqueViolation("posts_tags.post_id, posts_tags.tag_id"));
      }
      postsTags := postsTags + [PostTag(postId, tagId)];
      err := None;
    }

    method AddTagToPost(post: Post, externalTag: string) returns (err: Option<Error>)
      modifies this
      ensures var s := TagPost(env, old(Snapshot()), post.id, externalTag); Snapshot() == s.db && err == s.err
    {
      var tag, findErr := FindTagByName(externalTag);
      if findErr.Some? {
        ghost var before := Snapshot();
        var addErr, created := AddTag(Tag(0, externalTag));
        if addErr.Some? {
          return addErr;
        }
        FirstTagNamedAppend(before.tags, created, externalTag);
        tag, findErr := FindTagByName(externalTag);
        if findErr.Some? {
          assert false;
          return findErr;
        }
      }
      err := AddPostTag(post.id, tag.id);
    }

    method AddSubscription(sub: Subscription) returns (err: Option<Error>, saved: Subscription)
      modifies this
      ensures var s := InsertSubscription(env, old(Snapshot()), sub); Snapshot() == s.db && saved == s.row && err == s.err
    {
      if Subscriptions in env.unavailable {
        return Some(StoreFailure(Subscriptions)), sub;
      }
      saved := sub.(id := lastSubscriptionId + 1);
      subscriptions := subscriptions + [saved];
      lastSubscriptionId := saved.id;
      err := None;
    }

    method ListAllSubscriptions() returns (subs: seq<Subscription>, err: Option<Error>)
      ensures ListSubscriptions(env, Snapshot()) == Listing(subs, err)
      ensures err.None? ==> subs == subscriptions
    {
      if Subscriptions in env.unavailable {
        return [], Some(StoreFailure(Subscriptions));
      }
      return subscriptions, None;
    }

    method RemoveAll() returns (err: Option<Error>)
      modifies this
      ensures var s := RemoveAllSubscriptions(env, old(Snapshot())); Snapshot() == s.db && err == s.err
    {
      if Subscriptions in env.unavailable {
        return Some(StoreFailure(Subscriptions));
      }
      subscriptions := [];
      err := None;
    }

    /** The insert callback `AddPhoto` hands its transaction. */
    method InsertPhotoRow(photo: Photo) returns (err: Option<Error>, saved: Photo)
      modifies this
      ensures var s := InsertPhoto(env, old(Snapshot()), photo); Snapshot() == s.db && saved == s.row && err == s.err
    {
      if Photos in env.unavailable {
        return Some(StoreFailure(Photos)), photo;
      }
      saved := photo.(id := lastPhotoId + 1);
      photos := photos + [saved];
      lastPhotoId := saved.id;
      err := None;
    }

    /** The insert callback `AddVideo` hands its transaction. */
    method InsertVideoRow(video: Video) returns (err: Option<Error>, saved: Video)
      modifies this
      ensures var s := InsertVideo(env, old(Snapshot()), video); Snapshot() == s.db && saved == s.row && err == s.err
    {
      if Videos in env.unavailable {
        return Some(StoreFailure(Videos)), video;
      }
      saved := video.(id := lastVideoId + 1);
      videos := videos + [saved];
      lastVideoId := saved.id;
      err := None;
    }

    /** `download`: the file is created and the URL fetched; the outcome comes from the environment. */
    method DownloadFile(task: DownloadTask) returns (err: Option<Error>)
      modifies this
      ensures var s := Download(env, old(Snapshot()), task); Snapshot() == s.db && err == s.err
    {
      downloads := downloads + [task];
      err := if task in env.failingDownloads then Some(DownloadFailed(task)) else None;
    }

    method AddPhoto(photo: Photo) returns (err: Option<Error>, saved: Photo)
      modifies this
      ensures var s := Media.AddPhoto(env, old(Snapshot()), photo); Snapshot() == s.db && saved == s.row && err == s.err
    {
      var trx := new MediaTransaction();
      var validated := trx.ValidateUrls([photo.externalUrl]);
      var inserted, row := trx.Save(this, PhotoRow(photo));
      saved := row.photo;
      var downloaded := trx.DownloadAll(this, [DownloadTask(photo.externalUrl, PhotoPath(env, saved))]);
      err := trx.err;
    }

    method AddVideo(video: Video) returns (err: Option<Error>, saved: Video)
      modifies this
      ensures var s := Media.AddVideo(env, old(Snapshot()), video); Snapshot() == s.db && saved == s.row && err == s.err
    {
      var trx := new MediaTransaction();
      var validated := trx.ValidateUrls([video.externalUrl, video.thumbnailUrl]);
      var inserted, row := trx.Save(this, VideoRow(video));
      saved := row.video;
      var downloaded := trx.DownloadAll(this, [
        DownloadTask(video.externalUrl, VideoPath(env, saved)),
        DownloadTask(video.thumbnailUrl, ThumbnailPath(env, saved))]);
      err := trx.err;
    }
  }

  /** `mediaTransaction`: once `err` is set, every later step does nothing and returns it. */
  class MediaTransaction {
    var err: Option<Error>

    constructor ()
      ensures err.None?
    {
      err := None;
    }

    /** `validateUrls`: check the URLs in order and stop at the first one refused. */
    method ValidateUrls(urls: seq<string>) returns (e: Option<Error>)
      modifies this
      ensures err == Media.ValidateUrls(old(err), urls) && e == err
    {
      if err.Some? {
        return err;
      }
      for i := 0 to |urls|
        invariant err.None?
        invariant forall k :: 0 <= k < i ==> RequestUri.Valid(urls[k])
      {
        var problem := RequestUri.ParseRequestUri(urls[i]);
        if problem.Some? {
          err := Some(InvalidUrl(urls[i], problem.value));
          return err;
        }
      }
      return None;
    }

    /** `save`: run the insert callback once, unless an earlier step failed. */
    method Save(repo: Repository, a: Attachment) returns (e: Option<Error>, saved: Attachment)
      modifies this, repo
      ensures var s := Media.Save(repo.env, old(repo.Snapshot()), old(err), a);
        repo.Snapshot() == s.db && saved == s.row && err == s.err && e == err
    {
      if err.Some? {
        return err, a;
      }
      match a {
        case PhotoRow(p) =>
          var insertErr, row := repo.InsertPhotoRow(p);
          err, saved := insertErr, PhotoRow(row);
        case VideoRow(v) =>
          var insertErr, row := repo.InsertVideoRow(v);
          err, saved := insertErr, VideoRow(row);
      }
      e := err;
    }

    /** `downloadAll`: run the downloads in order and stop at the first failure, keeping the files
        already written. */
    method DownloadAll(repo: Repository, tasks: seq<DownloadTask>) returns (e: Option<Error>)
      modifies this, repo
      ensures var s := Media.DownloadAll(repo.env, old(repo.Snapshot()), old(err), tasks);
        repo.Snapshot() == s.db && err == s.err && e == err
    {
      if err.Some? {
        return err;
      }
      for i := 0 to |tasks|
        invariant err.None?
        invariant forall k :: 0 <= k < i ==> tasks[k] !in repo.env.failingDownloads
        invariant repo.Snapshot() == old(repo.Snapshot()).(downloads := old(repo.Snapshot()).downloads + tasks[..i])
      {
        var downloadErr := repo.DownloadFile(tasks[i]);
        assert tasks[..i + 1] == tasks[..i] + [tasks[i]];
        if downloadErr.Some? {
          Media.FailsAt(repo.env, tasks, i);
          err := downloadErr;
          return err;
        }
      }
      Media.NoneFails(repo.env, tasks);
      assert tasks[..|tasks|] == tasks;
      return None;
    }
  }
}
