/** The `Syncer`: the imperative sync loops of tumblr/sync.go over a `Repository` and a `Client`.
    Each method is proved to leave the store and the call log exactly as the matching function of
    `SyncSpec` says, so every property proved there holds of these loops. */
module Sync {

  import opened Wrappers
  import opened Decimal
  import opened Media
  import Api = TumblrApi
  import opened SyncSpec
  import MediaRepo

  class Syncer {
    const blogName: string
    const client: Api.Client
    const repo: MediaRepo.Repository
    /** `time.Parse` with the layout of post dates. */
    const parseDate: DateParser

    constructor (blogName: string, client: Api.Client, repo: MediaRepo.Repository, parseDate: DateParser)
      ensures this.blogName == blogName && this.client == client && this.repo == repo && this.parseDate == parseDate
    {
      this.blogName := blogName;
      this.client := client;
      this.repo := repo;
      this.parseDate := parseDate;
    }

    /** The store and the call log together. */
    function State(): World
      reads repo, client
    {
      World(repo.Snapshot(), client.calls)
    }

    /** `syncBlogPost`. */
    method SyncBlogPost(ext: Api.Post, status: string) returns (stored: bool)
      modifies repo
      ensures var s := SyncPost(repo.env, parseDate, old(repo.Snapshot()), ext, status);
        repo.Snapshot() == s.db && stored == s.ok
    {
      var known := repo.PostExistsWithExternalID(IntToString(ext.id));
      if known {
        return false;
      }
      var created := CreatePost(parseDate, ext);
      if created.None? {
        return false;
      }
      var post := created.value.(status := status);
      var err, saved := repo.AddPost(post);
      if err.Some? {
        return false;
      }
      stored := AttachChildren(saved, ext);
      if !stored {
        return;
      }
      if saved.status != "added" {
        return true;
      }
      AttachTags(saved, ext.tags);
      stored := true;
    }

    /** The switch of `syncBlogPost` on the type tag. */
    method AttachChildren(post: Post, ext: Api.Post) returns (ok: bool)
      modifies repo
      ensures var s := AddChildren(repo.env, old(repo.Snapshot()), post, ext);
        repo.Snapshot() == s.db && ok == s.ok
    {
      if post.kind == "link" {
        var err, _ := repo.AddLink(CreateLink(post, ext));
        return err.None?;
      } else if post.kind == "text" {
        var err, _ := repo.AddText(CreateText(post, ext));
        return err.None?;
      } else if post.kind == "photo" {
        ok := AttachPhotos(post, ext.photos);
      } else if post.kind == "video" {
        var err, _ := repo.AddVideo(CreateVideo(post, ext));
        return err.None?;
      } else {
        return false;
      }
    }

    /** The photo loop of `syncBlogPost`: it stops at the first photo that cannot be stored. */
    method AttachPhotos(post: Post, photos: seq<Api.RemotePhoto>) returns (ok: bool)
      modifies repo
      ensures var s := AddPhotos(repo.env, old(repo.Snapshot()), post, photos);
        repo.Snapshot() == s.db && ok == s.ok
    {
      ghost var db0 := repo.Snapshot();
      var i := 0;
      while i < |photos|
        invariant 0 <= i <= |photos|
        invariant AddPhotos(repo.env, db0, post, photos) == AddPhotos(repo.env, repo.Snapshot(), post, photos[i..])
        decreases |photos| - i
      {
        ghost var before := repo.Snapshot();
        var err, _ := repo.AddPhoto(CreatePhoto(post, photos[i].url, photos[i].caption));
        PhotosStep(repo.env, before, post, photos[i..], photos[i + 1..]);
        assert photos[i..][0] == photos[i];
        if err.Some? {
          return false;
        }
        i := i + 1;
      }
      return true;
    }

    /** The tag loop of `syncBlogPost`: the error of each `AddTagToPost` is dropped. */
    method AttachTags(post: Post, tags: seq<string>)
      modifies repo
      ensures repo.Snapshot() == AddTags(repo.env, old(repo.Snapshot()), post.id, tags)
    {
      ghost var db0 := repo.Snapshot();
      var i := 0;
      while i < |tags|
        invariant 0 <= i <= |tags|
        invariant AddTags(repo.env, db0, post.id, tags) == AddTags(repo.env, repo.Snapshot(), post.id, tags[i..])
        decreases |tags| - i
      {
        assert tags[i..][0] == tags[i] && tags[i..][1..] == tags[i + 1..];
        var _ := repo.AddTagToPost(post, tags[i]);
        i := i + 1;
      }
    }

    /** `syncBlogPosts`: page through the blog, store each post as "added" and delete it remotely
        once stored. */
    method SyncBlogPosts(totalPosts: int)
      modifies repo, client
      ensures State() == Walk(repo.env, parseDate, client.remote, BlogFlow(blogName), old(State()), 0, totalPosts)
    {
      ghost var turn := (v: World, o: int) => Turn(repo.env, parseDate, client.remote, BlogFlow(blogName), v, o);
      PagedWalk(repo.env, parseDate, client.remote, BlogFlow(blogName), turn, State(), 0, totalPosts);
      PageBlogPosts(turn, totalPosts);
    }

    /** The offset loop of `syncBlogPosts`; `turn` stands for one turn of `Walk` on the blog. */
    method PageBlogPosts(ghost turn: (World, int) -> World, totalPosts: int)
      requires forall v, o {:trigger Turn(repo.env, parseDate, client.remote, BlogFlow(blogName), v, o)} ::
        turn(v, o) == Turn(repo.env, parseDate, client.remote, BlogFlow(blogName), v, o)
      modifies repo, client
      ensures State() == Paged(turn, old(State()), 0, totalPosts)
    {
      ghost var w0 := State();
      var offset := 0;
      while offset < totalPosts
        invariant Paged(turn, w0, 0, totalPosts) == Paged(turn, State(), offset, totalPosts)
        decreases totalPosts - offset
      {
        SyncBlogWindow(turn, offset);
        offset := offset + PageLimit;
      }
    }

    /** One turn of the offset loop of `syncBlogPosts`: fetch the page at `offset` and sync it. */
    method SyncBlogWindow(ghost turn: (World, int) -> World, offset: int)
      requires forall v, o {:trigger Turn(repo.env, parseDate, client.remote, BlogFlow(blogName), v, o)} ::
        turn(v, o) == Turn(repo.env, parseDate, client.remote, BlogFlow(blogName), v, o)
      modifies repo, client
      ensures State() == turn(old(State()), offset)
    {
      var page := client.BlogPosts(blogName, Api.Window(offset, PageLimit));
      SyncBlogPage(page.posts);
      assert State() == Turn(repo.env, parseDate, client.remote, BlogFlow(blogName), old(State()), offset);
    }

    /** The loop of `syncBlogPosts` over the posts of one page. */
    method SyncBlogPage(posts: seq<Api.Post>)
      modifies repo, client
      ensures State() == SyncItems(repo.env, parseDate, BlogFlow(blogName), old(State()), posts)
    {
      ghost var w0 := State();
      var i := 0;
      while i < |posts|
        invariant 0 <= i <= |posts|
        invariant SyncItems(repo.env, parseDate, BlogFlow(blogName), w0, posts)
               == SyncItems(repo.env, parseDate, BlogFlow(blogName), State(), posts[i..])
        decreases |posts| - i
      {
        ItemsStep(repo.env, parseDate, BlogFlow(blogName), State(), posts[i..], posts[i + 1..]);
        assert posts[i..][0] == posts[i];
        SyncBlogItem(posts[i]);
        i := i + 1;
      }
    }

    /** One turn of that loop: store the post as "added" and, once stored, delete it remotely. */
    method SyncBlogItem(post: Api.Post)
      modifies repo, client
      ensures State() == PostStep(repo.env, parseDate, BlogFlow(blogName), old(State()), post)
    {
      var stored := SyncBlogPost(post, "added");
      if stored {
        client.PostDelete(blogName, post.id);
      }
    }

    /** `syncLikes`: page through the likes, store each post as "queued" and unlike it once stored. */
    method SyncLikes(totalLikes: int)
      modifies repo, client
      ensures State() == Walk(repo.env, parseDate, client.remote, LikesFlow, old(State()), 0, totalLikes)
    {
      ghost var turn := (v: World, o: int) => Turn(repo.env, parseDate, client.remote, LikesFlow, v, o);
      PagedWalk(repo.env, parseDate, client.remote, LikesFlow, turn, State(), 0, totalLikes);
      PageLikes(turn, totalLikes);
    }

    /** The offset loop of `syncLikes`; `turn` stands for one turn of `Walk` on the likes. */
    method PageLikes(ghost turn: (World, int) -> World, totalLikes: int)
      requires forall v, o {:trigger Turn(repo.env, parseDate, client.remote, LikesFlow, v, o)} ::
        turn(v, o) == Turn(repo.env, parseDate, client.remote, LikesFlow, v, o)
      modifies repo, client
      ensures State() == Paged(turn, old(State()), 0, totalLikes)
    {
      ghost var w0 := State();
      var offset := 0;
      while offset < totalLikes
        invariant Paged(turn, w0, 0, totalLikes) == Paged(turn, State(), offset, totalLikes)
        decreases totalLikes - offset
      {
        SyncLikesWindow(turn, offset);
        offset := offset + PageLimit;
      }
    }

    /** One turn of the offset loop of `syncLikes`: fetch the page at `offset` and sync it. */
    method SyncLikesWindow(ghost turn: (World, int) -> World, offset: int)
      requires forall v, o {:trigger Turn(repo.env, parseDate, client.remote, LikesFlow, v, o)} ::
        turn(v, o) == Turn(repo.env, parseDate, client.remote, LikesFlow, v, o)
      modifies repo, client
      ensures State() == turn(old(State()), offset)
    {
      var likes := client.UserLikes(Api.Window(offset, PageLimit));
      SyncLikesPage(likes.likedPosts);
      assert State() == Turn(repo.env, parseDate, client.remote, LikesFlow, old(State()), offset);
    }

    /** The loop of `syncLikes` over the posts of one page. */
    method SyncLikesPage(posts: seq<Api.Post>)
      modifies repo, client
      ensures State() == SyncItems(repo.env, parseDate, LikesFlow, old(State()), posts)
    {
      ghost var w0 := State();
      var i := 0;
      while i < |posts|
        invariant 0 <= i <= |posts|
        invariant SyncItems(repo.env, parseDate, LikesFlow, w0, posts) == SyncItems(repo.env, parseDate, LikesFlow, State(), posts[i..])
        decreases |posts| - i
      {
        ItemsStep(repo.env, parseDate, LikesFlow, State(), posts[i..], posts[i + 1..]);
        assert posts[i..][0] == posts[i];
        SyncLikesItem(posts[i]);
        i := i + 1;
      }
    }

    /** One turn of that loop: store the post as "queued" and, once stored, unlike it. */
    method SyncLikesItem(post: Api.Post)
      modifies repo, client
      ensures State() == PostStep(repo.env, parseDate, LikesFlow, old(State()), post)
    {
      var stored := SyncBlogPost(post, "queued");
      if stored {
        client.UserUnlike(post.id, post.reblogKey);
      }
    }

    /** `Sync`: the post total, the blog walk, the like total, the likes walk. */
    method Sync()
      modifies repo, client
      ensures State() == SyncContent(repo.env, parseDate, client.remote, blogName, old(State()))
    {
      var probe := client.BlogPosts(blogName, Api.Probe);
      SyncBlogPosts(probe.totalPosts);
      var likes := client.UserLikes(Api.Probe);
      SyncLikes(likes.likedCount);
    }

    /** `SubsDown`: read the follow total, delete all subscriptions, import the follow list page by
        page. The error of the delete is dropped. */
    method SubsDown()
      modifies repo, client
      ensures State() == SubsDownSpec(repo.env, client.remote, old(State()))
    {
      var following := client.UserFollowing(Api.Probe);
      var total := following.totalBlogs;
      var _ := repo.RemoveAll();
      ghost var turn := (v: World, o: int) => SubsTurn(repo.env, client.remote, v, o);
      PagedSubsWalk(repo.env, client.remote, turn, State(), 0, total);
      PageFollowing(turn, total);
    }

    /** The offset loop of `SubsDown`; `turn` stands for one turn of `SubsWalk`. */
    method PageFollowing(ghost turn: (World, int) -> World, total: int)
      requires forall v, o {:trigger SubsTurn(repo.env, client.remote, v, o)} :: turn(v, o) == SubsTurn(repo.env, client.remote, v, o)
      modifies repo, client
      ensures State() == Paged(turn, old(State()), 0, total)
    {
      ghost var w0 := State();
      var offset := 0;
      while offset < total
        invariant Paged(turn, w0, 0, total) == Paged(turn, State(), offset, total)
        decreases total - offset
      {
        ghost var before := State();
        var page := client.UserFollowing(Api.Window(offset, PageLimit));
        ImportBlogs(page.blogs);
        assert State() == SubsTurn(repo.env, client.remote, before, offset);
        offset := offset + PageLimit;
      }
    }

    /** The loop of `SubsDown` over the blogs of one page; the error of each insert is dropped. */
    method ImportBlogs(blogs: seq<Api.Blog>)
      modifies repo
      ensures repo.Snapshot() == AddBlogs(repo.env, old(repo.Snapshot()), blogs)
    {
      ghost var db0 := repo.Snapshot();
      var j := 0;
      while j < |blogs|
        invariant 0 <= j <= |blogs|
        invariant AddBlogs(repo.env, db0, blogs) == AddBlogs(repo.env, repo.Snapshot(), blogs[j..])
        decreases |blogs| - j
      {
        assert blogs[j..][0] == blogs[j] && blogs[j..][1..] == blogs[j + 1..];
        var _, _ := repo.AddSubscription(SubscriptionOf(blogs[j]));
        j := j + 1;
      }
    }

    /** `SubsUp`: follow every stored subscription, in list order. The Go code panics when the list
        cannot be read; here that error is returned and nothing is followed. */
    method SubsUp() returns (err: Option<Error>)
      modifies client
      ensures var l := ListSubscriptions(repo.env, repo.Snapshot());
        && err == l.err
        && client.calls == old(client.calls) + FollowCalls(l.rows)
    {
      var subs;
      subs, err := repo.ListAllSubscriptions();
      if err.Some? {
        return;
      }
      var i := 0;
      while i < |subs|
        invariant 0 <= i <= |subs|
        invariant client.calls == old(client.calls) + FollowCalls(subs[..i])
      {
        assert subs[..i + 1][..i] == subs[..i];
        client.UserFollow(subs[i].url);
        i := i + 1;
      }
      assert subs[..|subs|] == subs;
    }
  }
}
