/** The part of the Tumblr API the syncer uses: the records it reads and a client that records every
    call it is asked to make. What the remote side answers is a fixed function of the request; the
    HTTP and OAuth machinery behind it is not part of this model. */
module TumblrApi {

  /** One picture of a photo post: its caption and the URL of its original size. */
  datatype RemotePhoto = RemotePhoto(caption: string, url: string)

  /** A post as the API delivers it, restricted to the fields the syncer reads. */
  datatype Post = Post(
    id: int, kind: string, blogName: string, postUrl: string, sourceUrl: string, sourceTitle: string,
    noteCount: int, date: string, summary: string,
    url: string, title: string, body: string, photos: seq<RemotePhoto>,
    videoUrl: string, thumbnailUrl: string, tags: seq<string>, reblogKey: string)

  /** A followed blog. */
  datatype Blog = Blog(name: string, url: string, title: string, description: string)

  datatype BlogPosts = BlogPosts(totalPosts: int, posts: seq<Post>)

  datatype Likes = Likes(likedCount: int, likedPosts: seq<Post>)

  datatype Following = Following(totalBlogs: int, blogs: seq<Blog>)

  /** The parameters of a listing request: none at all (the probe that reads the total), or an
      `offset` and a `limit`. */
  datatype Query = Probe | Window(offset: int, limit: int)

  /** The requests of the `API` interface, as the client records them. */
  datatype Call =
    | BlogPostsCall(blogName: string, query: Query)
    | PostDeleteCall(blog: string, postId: int)
    | UserLikesCall(likesQuery: Query)
    | UserUnlikeCall(likedId: int, reblogKey: string)
    | UserFollowingCall(followingQuery: Query)
    | UserFollowCall(followUrl: string)

  /** The answers of the remote side to the three listing requests. */
  datatype Remote = Remote(
    blogPosts: (string, Query) -> BlogPosts,
    userLikes: Query -> Likes,
    userFollowing: Query -> Following)

  /** An `API` implementation that answers from `remote` and logs each request, in order. */
  class Client {
    const remote: Remote
    var calls: seq<Call>

    constructor (remote: Remote)
      ensures this.remote == remote && calls == []
    {
      this.remote := remote;
      calls := [];
    }

    method BlogPosts(blogName: string, query: Query) returns (r: BlogPosts)
      modifies this
      ensures r == remote.blogPosts(blogName, query)
      ensures calls == old(calls) + [BlogPostsCall(blogName, query)]
    {
      r := remote.blogPosts(blogName, query);
      calls := calls + [BlogPostsCall(blogName, query)];
    }

    method PostDelete(blogName: string, id: int)
      modifies this
      ensures calls == old(calls) + [PostDeleteCall(blogName, id)]
    {
      calls := calls + [PostDeleteCall(blogName, id)];
    }

    method UserLikes(query: Query) returns (r: Likes)
      modifies this
      ensures r == remote.userLikes(query)
      ensures calls == old(calls) + [UserLikesCall(query)]
    {
      r := remote.userLikes(query);
      calls := calls + [UserLikesCall(query)];
    }

    method UserUnlike(id: int, reblogKey: string)
      modifies this
      ensures calls == old(calls) + [UserUnlikeCall(id, reblogKey)]
    {
      calls := calls + [UserUnlikeCall(id, reblogKey)];
    }

    method UserFollowing(query: Query) returns (r: Following)
      modifies this
      ensures r == remote.userFollowing(query)
      ensures calls == old(calls) + [UserFollowingCall(query)]
    {
      r := remote.userFollowing(query);
      calls := calls + [UserFollowingCall(query)];
    }

    method UserFollow(url: string)
      modifies this
      ensures calls == old(calls) + [UserFollowCall(url)]
    {
      calls := calls + [UserFollowCall(url)];
    }
  }
}
