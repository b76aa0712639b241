# bellboy sync engine, in Dafny

bellboy mirrors a Tumblr account into a local media store. `Sync` pages through the posts of a
blog and the user's likes. It stores each post it has not seen yet, together with its link, text,
photo or video records and its tags. It then deletes the post on Tumblr (blog posts) or unlikes it
(likes). `SubsDown` replaces the stored subscriptions with the blogs the user follows, and `SubsUp`
follows every stored subscription. The media package stores records in SQLite tables. Photos and
videos are downloaded into the configured media folder, under file names built from their generated ids.

The model has three layers.

- **The store** (`Media`, `MediaRepo`).
  - Each table is a sequence of rows with an AUTOINCREMENT counter, so ids start at 1 and grow by one per insert.
  - The schema's uniqueness constraints are insert failures: `posts.external_id`, `tags.name` and the `(post_id, tag_id)` primary key of `posts_tags`.
  - An `Env` says which tables fail every statement and which downloads fail.
  - `Media` gives each statement as a function from the store to the store after it, with the error it reports.
  - `MediaRepo.Repository` is a class whose fields are the tables. Each method is proved to change them exactly as that function says.
  - `MediaRepo.MediaTransaction` is the one-field state machine behind `AddPhoto` and `AddVideo`.
  - `Media.Valid` holds the store's invariant (positive ascending ids bounded by the counter, unique keys, pairs naming stored tags). Every operation keeps it.
- **Strings** (`Decimal`, `UrlExtension`, `RequestUri`).
  - `strconv.Itoa` and `%d`, with their inverse.
  - The extension regular expression of media/utils.go, with Go's leftmost-first semantics.
  - The decisions `url.ParseRequestURI` takes on the URLs the code validates.
- **The syncer** (`TumblrApi`, `SyncSpec`, `Sync`).
  - `TumblrApi.Client` logs every call. The remote answers are a fixed function of the request.
  - `SyncSpec` gives `syncBlogPost`, the page walks, `Sync`, `SubsDown` and `SubsUp` as functions of the store and the call log, and proves their properties.
  - `Sync.Syncer` is the imperative code, loop for loop. Each of its methods is proved equal to the matching `SyncSpec` function.

## Model

| member | source | states |
|---|---|---|
| Decimal.NatToString | media/photos.go:48-51 | the decimal form of a number is a non-empty string of digits that starts with '0' only for 0 |
| Decimal.IntToString | tumblr/sync.go:177 | `strconv.Itoa` starts with a minus sign exactly for negative numbers and is digits otherwise |
| Decimal.NatRoundTrip | media/photos.go:50 | reading back the decimal form of `n` gives `n` |
| Decimal.NatToStringInjective | media/photos.go:50 | different numbers have different decimal forms |
| Decimal.IntToStringInjective | tumblr/sync.go:177 | different remote ids have different `Itoa` forms |
| Decimal.NatToStringPrefix | media/photos.go:50 | a decimal form followed by a non-digit suffix splits uniquely into the number and the suffix |
| Decimal.PrefixedNatToString | media/videos.go:55 | the same after a common prefix such as "video_" |
| UrlExtension.Extension | media/utils.go:31-38 | the result is "" or a dot followed by 2 to 6 ASCII letters or digits |
| UrlExtension.ExtensionIsLastMatch | media/utils.go:32-37 | the result is empty exactly when the pattern matches nowhere; otherwise it is the dot and group of a match, at the greatest dot any match can use |
| UrlExtension.ExtensionOfMatch | media/utils.go:32-35 | a match whose dot has no later dot yields its own group |
| UrlExtension.ExtensionNeedsSchemeAndSlash | media/utils.go:32 | without `http://` or `https://` followed, after at least one character, by a `/`, the result is "" |
| UrlExtension.QueryWithoutDotIsIgnored | media/utils.go:32 | appending `?` and a query without a dot or newline leaves the extension unchanged |
| UrlExtension.ExtensionOfEnding | media/utils.go:32-35 | `http://host/name.e` with `e` 2 to 6 letters or digits has extension `.e` |
| UrlExtension.NoPathNoExtension | media/utils.go:32 | a URL with only a host after the scheme has no extension |
| UrlExtension.NoSchemeNoExtension | media/utils.go:32 | a text without `h` has no extension |
| UrlExtension.ExamplePath | media/photos_test.go:19 | `.../some/path/filename.jpg` has extension ".jpg", and the same URL ending in `.avi` (videos_test.go:19) has ".avi" |
| UrlExtension.ExampleQuery | media/photos_test.go:20 | `.../filename.jpeg?q=t#fragment` has extension ".jpeg", and the same URL with `.mpeg` (videos_test.go:20) has ".mpeg" |
| UrlExtension.ExamplesWithout | media/photos_test.go:21-22 | `http://example.com` and `not a url` have no extension |
| RequestUri.ParseRequestUri | media/utils.go:49-55 | the "empty url" error comes exactly for the empty URL; the control-character error comes exactly when the URL holds a control character; "*" is accepted |
| RequestUri.SchemeAccepted | media/utils.go:50 | in the model, a URL that starts with one or more letters and a colon and holds no control character is accepted, whatever follows; Go itself refuses some of these later, in its authority checks (`http://host:x/`, an invalid port) |
| RequestUri.RelativeRefused | media/utils.go:50 | a URL without a colon that is not `*` and does not start with `/` is "invalid URI for request" |
| RequestUri.EmptyRefused | media/photos_test.go:44 | the empty URL fails with "parse : empty url" |
| RequestUri.RelativeVideoUrl | media/videos_test.go:63 | `path/filename.avi` is refused as invalid for a request, with the error text "parse path/filename.avi: invalid URI for request" |
| RequestUri.RelativePhotoUrl | media/photos_test.go:45 | `http//fdfds` is refused as invalid for a request, with the error text "parse http//fdfds: invalid URI for request" |
| RequestUri.TestAbsoluteUrl | media/photos_test.go:42 | `http://example.com/path/filename.jpg` is accepted |
| Media.EmptyDb | media/repository.go:34-39 | the freshly created store satisfies the invariant |
| Media.PostExists | media/posts.go:7-11 | true iff some stored post has the external id; a failing query reads as false |
| Media.InsertPost | media/posts.go:13-35 | fails and changes nothing iff the table fails or the external id is stored (then with the `external_id` violation); otherwise appends the post under the next id, which is written back, and keeps the invariant |
| Media.InsertLink | media/links.go:7-28 | appends the link under the next positive id and writes it back, and touches no other table; on error nothing changes and the id is not written |
| Media.InsertText | media/texts.go:7-28 | the same for texts |
| Media.FirstTagNamed | media/tags.go:57-61 | finds a tag iff one with the name is stored, and returns a stored tag with that name |
| Media.FirstTagNamedAppend | media/tags.go:35 | after appending a tag with a new name, the lookup by that name returns it |
| Media.FindTag | media/tags.go:57-61 | `findTag` succeeds iff the table works and the name is stored |
| Media.InsertTag | media/tags.go:7-23 | fails with the `tags.name` violation and changes nothing on a stored name; otherwise appends the tag under the next id |
| Media.InsertPostTag | media/tags.go:41-45 | appends the pair unless it is stored (then the composite key violation) or the table fails |
| Media.TagPost | media/tags.go:25-46 | find-or-create: a new tag only when the name is not stored; only tags, the tag counter and pairs change; on success the pair of the post and the named tag is stored and exactly one pair was added; on error no pair is added; the invariant is kept |
| Media.CreateAndPair | media/tags.go:27-44 | when the name is not stored: a failing tags table fails with nothing changed; otherwise the tag is created under the next tag id and that id, not another, is paired with the post; the invariant is kept |
| Media.InsertSubscription | media/subscriptions.go:7-28 | appends one row with the given fields under the next positive id; no uniqueness check |
| Media.ListSubscriptions | media/subscriptions.go:30-37 | all rows in insertion order, or an error and no rows when the table fails |
| Media.RemoveAllSubscriptions | media/subscriptions.go:39-42 | empties the table and keeps its counter, or fails and changes nothing |
| Media.FirstInvalidUrl | media/utils.go:49-55 | no error iff every URL is accepted; otherwise the error of the first refused URL |
| Media.ValidateUrls | media/utils.go:45-57 | a transaction already in error keeps that error; otherwise the first refused URL's error |
| Media.InsertPhoto | media/photos.go:12-33 | the photo insert callback appends the row under the next id |
| Media.InsertVideo | media/videos.go:12-33 | the video insert callback appends the row under the next id |
| Media.Save | media/utils.go:73-83 | in error, nothing happens and the error stays; otherwise the callback runs once and its error becomes the transaction's |
| Media.Download | media/utils.go:12-29 | every download is logged; it fails exactly for the tasks the environment makes fail |
| Media.FirstFailing | media/utils.go:63-69 | the index of the first failing task, all earlier tasks succeeding |
| Media.Started | media/utils.go:63-69 | the tasks started are those up to and including the first failing one, or all of them when none fails |
| Media.DownloadEach | media/utils.go:63-69 | the tasks run in order up to and including the first failure, whose error is reported; nothing is undone |
| Media.DownloadAll | media/utils.go:59-71 | in error, nothing is downloaded and the error stays |
| Media.AddPhoto | media/photos.go:10-41 | an invalid URL returns its error with no row and no download; a failing insert returns its error with no download; otherwise the row goes in under the next id, and exactly one download of the URL goes to the path built from that id, which decides the error |
| Media.TwoDownloads | media/utils.go:63-69 | a failing first download stops the second |
| Media.DownloadPair | media/videos.go:37-40 | the download loop over two tasks is the two downloads in order |
| Media.AddVideo | media/videos.go:10-42 | the video URL is checked before the thumbnail URL, and an invalid one means no row and no download; otherwise the row goes in, then the video download, then the thumbnail download only if the video download succeeded; the row stays whatever the downloads do |
| Media.AddedPostExists | media/posts.go:7-35 | after a successful `AddPost`, `PostExistsWithExternalID` of its external id holds |
| Media.AddPostTwice | media/posts.go:16-28 | a second `AddPost` of the same post fails on `external_id` and changes nothing |
| Media.FoundTagIsTheOne | media/tags.go:68 | in a valid store the tag found by name is the only one with that name |
| Media.NewTagStep | media/tags.go:26-45 | a new name creates the tag under the next id and pairs it with the post |
| Media.ExistingTagStep | media/tags.go:26-45 | a stored name reuses the tag; the pair is added unless present, else the key violation |
| Media.PairedTagIdsBounded | media/tags.go:25-46 | in a valid store every pair names a tag id the counter has already handed out |
| Media.TagPostPairs | media/tags.go:25-46 | with both tag tables working, `AddTagToPost` only appends to `tags` and `posts_tags`, and afterwards the post carries a stored tag of that name, whether the call paired it or the composite key refused a pair already there; a newly created tag is always paired |
| Media.TagPairedGrows | media/tags.go:25-46 | appending tags and pairs never takes a post's tag away |
| Media.TagScenarioOne | media/tags_test.go:20-63 | the first call of the tag test creates "new-tag" |
| Media.TagScenarioTwo | media/tags_test.go:20-63 | the second call reuses "existing-tag" |
| Media.TagScenarioThree | media/tags_test.go:20-63 | the third call creates "another-tag" |
| Media.TagScenarioFour | media/tags_test.go:20-63 | the fourth call fails on the pair key |
| Media.TagScenario | media/tags_test.go:20-63 | the whole tag test: three successes, then the key violation, with 1 tag becoming 3 |
| Media.ExtensionNotDigit | media/utils.go:35 | an extension never starts with a digit |
| Media.Join | media/photos.go:44 | `filepath.Join` without path cleaning: the name ends the path, and a non-empty folder and "/" start it |
| Media.PhotoFileName | media/photos.go:48-51 | the name starts with "photo_"; FileNamesEndInExtension, PhotoFileNamesDistinct and the PhotoFileName examples pin down the rest |
| Media.VideoFileName | media/videos.go:53-56 | the name starts with "video_"; FileNamesEndInExtension, VideoFileNamesDistinct and the VideoFileName examples pin down the rest |
| Media.ThumbnailFileName | media/videos.go:59-62 | the name starts with "video_"; FileNamesEndInExtension, ThumbnailNeverVideoFile and the ThumbnailFileName examples pin down the rest |
| Media.FileNamesEndInExtension | media/videos.go:53-62 | photo and video file names end in their URL's extension, a thumbnail's in "_thumbnail" and the extension |
| Media.PhotoPath | media/photos.go:43-45 | `GetPhotoPath`: the path ends in the photo's file name; MediaPathsDistinct gives distinct paths for distinct photos |
| Media.VideoPath | media/videos.go:44-46 | `GetVideoPath`: the path ends in the video's file name |
| Media.ThumbnailPath | media/videos.go:48-50 | `GetVideoThumbnailPath`: the path ends in the thumbnail's file name |
| Media.PhotoFileNamesDistinct | media/photos.go:47-51 | photos with different ids get different file names |
| Media.VideoFileNamesDistinct | media/videos.go:52-56 | videos with different ids get different file names |
| Media.ThumbnailNeverVideoFile | media/videos.go:52-62 | a thumbnail file name is never a video file name |
| Media.PhotoNeverVideoFile | media/photos.go:48-51 | photo and video file names never coincide |
| Media.JoinInjective | media/photos.go:43-45 | joining the media folder with different names gives different paths |
| Media.MediaPathsDistinct | media/videos.go:44-50 | distinct media get distinct download paths (`GetPhotoPath`, `GetVideoPath`, `GetVideoThumbnailPath`) |
| Media.PhotoFileNameWithPath | media/photos_test.go:19 | id 1 with `.../filename.jpg` is "photo_1.jpg" |
| Media.PhotoFileNameWithQuery | media/photos_test.go:20 | id 1234 with a query is "photo_1234.jpeg" |
| Media.PhotoFileNamesWithout | media/photos_test.go:21-22 | ids 54543 and 2 without an extension are "photo_54543" and "photo_2" |
| Media.VideoFileNameWithPath | media/videos_test.go:19 | "video_1.avi" |
| Media.VideoFileNameWithQuery | media/videos_test.go:20 | "video_1234.mpeg" |
| Media.VideoFileNamesWithout | media/videos_test.go:21-22 | "video_54543" and "video_2" |
| Media.ThumbnailFileNameWithPath | media/videos_test.go:38 | "video_4_thumbnail.jpg" |
| Media.ThumbnailFileNameWithQuery | media/videos_test.go:39 | "video_65464_thumbnail.jpeg" |
| Media.ThumbnailFileNamesWithout | media/videos_test.go:40-41 | "video_34543_thumbnail" and "video_9_thumbnail" |
| MediaRepo.Repository.constructor | media/repository.go:34-39 | a new repository holds the empty store |
| MediaRepo.Repository.PostExistsWithExternalID | media/posts.go:7-11 | true iff a stored post has the external id and the table works |
| MediaRepo.Repository.AddPost | media/posts.go:13-35 | the fields change as `InsertPost` says; the saved post carries the new id |
| MediaRepo.Repository.AddLink | media/links.go:7-28 | as `InsertLink` |
| MediaRepo.Repository.AddText | media/texts.go:7-28 | as `InsertText` |
| MediaRepo.Repository.AddTag | media/tags.go:7-23 | as `InsertTag` |
| MediaRepo.Repository.FindTagByName | media/tags.go:57-61 | the found tag and no error, or an empty tag and an error |
| MediaRepo.Repository.AddPostTag | media/tags.go:41-44 | as `InsertPostTag` |
| MediaRepo.Repository.AddTagToPost | media/tags.go:25-46 | find, create when missing, find again, then pair, as `TagPost` |
| MediaRepo.Repository.AddSubscription | media/subscriptions.go:7-28 | as `InsertSubscription` |
| MediaRepo.Repository.ListAllSubscriptions | media/subscriptions.go:30-37 | as `ListSubscriptions`, changing nothing |
| MediaRepo.Repository.RemoveAll | media/subscriptions.go:39-42 | as `RemoveAllSubscriptions` |
| MediaRepo.Repository.InsertPhotoRow | media/photos.go:12-33 | as `InsertPhoto` |
| MediaRepo.Repository.InsertVideoRow | media/videos.go:12-33 | as `InsertVideo` |
| MediaRepo.Repository.DownloadFile | media/utils.go:12-29 | as `Download` |
| MediaRepo.Repository.AddPhoto | media/photos.go:10-41 | the three transaction steps in order, as `Media.AddPhoto` |
| MediaRepo.Repository.AddVideo | media/videos.go:10-42 | the three transaction steps in order, as `Media.AddVideo` |
| MediaRepo.MediaTransaction.constructor | media/utils.go:40-43 | a new transaction has no error |
| MediaRepo.MediaTransaction.ValidateUrls | media/utils.go:45-57 | the loop over the URLs leaves the error `Media.ValidateUrls` gives |
| MediaRepo.MediaTransaction.Save | media/utils.go:73-83 | as `Media.Save` |
| MediaRepo.MediaTransaction.DownloadAll | media/utils.go:59-71 | the loop over the tasks leaves the store and error `Media.DownloadAll` gives |
| TumblrApi.Client.constructor | tumblr/sync_setup_test.go:121-125 | a new client has logged no call |
| TumblrApi.Client.BlogPosts | tumblr/sync_setup_test.go:127-129 | answers from the remote and logs the request |
| TumblrApi.Client.PostDelete | tumblr/sync_setup_test.go:131-134 | logs the delete |
| TumblrApi.Client.UserLikes | tumblr/sync_setup_test.go:136-138 | answers from the remote and logs the request |
| TumblrApi.Client.UserUnlike | tumblr/sync_setup_test.go:140-143 | logs the unlike |
| TumblrApi.Client.UserFollowing | tumblr/sync_setup_test.go:145-147 | answers from the remote and logs the request |
| TumblrApi.Client.UserFollow | tumblr/sync_setup_test.go:149-152 | logs the follow |
| SyncSpec.CreatePost | tumblr/sync.go:167-185 | none exactly when the date does not parse; otherwise not safe for work, source "tumblr", external id the decimal remote id, and the other fields copied one to one |
| SyncSpec.CreateLink | tumblr/sync.go:187-189 | a link of the given post to the remote URL, with no id yet; LinkPostChild gives the row it becomes |
| SyncSpec.CreateText | tumblr/sync.go:191-193 | a text of the given post with the remote title and body, with no id yet; TextPostChild gives the row it becomes |
| SyncSpec.CreateVideo | tumblr/sync.go:195-201 | a video of the given post with the remote video and thumbnail URLs, with no id yet; VideoPostChild gives the row it becomes |
| SyncSpec.CreatePhoto | tumblr/sync.go:203-210 | a photo of the given post with the given URL and caption, not safe for work, with no id yet; AddPhotosInOrder gives the rows they become |
| SyncSpec.ExternalIdsDistinct | tumblr/sync.go:177 | remote posts with different ids get different external ids |
| SyncSpec.AddPhotos | tumblr/sync.go:135-143 | only photos, the photo counter and downloads change; the old rows stay, at most one row per photo is added, all of them when it succeeds; the invariant is kept |
| SyncSpec.AddPhotoRow | tumblr/sync.go:137-138 | one `AddPhoto` adds nothing or the given photo under the next id, and adds it when it succeeds |
| SyncSpec.PhotosFollowStep | tumblr/sync.go:136 | the order of the photo rows extends row by row |
| SyncSpec.AddPhotosInOrder | tumblr/sync.go:135-143 | the new photo rows are the post's photos, in order, each pointing at the post |
| SyncSpec.AddChildren | tumblr/sync.go:120-154 | only the child tables and downloads change; an unknown type changes nothing and fails; the invariant is kept |
| SyncSpec.AddTags | tumblr/sync.go:161-163 | only tags and pairs change, and the invariant is kept; AddTagsPairs gives what the loop achieves |
| SyncSpec.AddTagsPairs | tumblr/sync.go:161-163 | with both tag tables working, every remote tag ends up stored and paired with the post, errors of `AddTagToPost` notwithstanding, and no tag or pair is taken away |
| SyncSpec.SettledGrows | tumblr/sync.go:103-106 | a post the gate skips stays skipped as posts are added |
| SyncSpec.SyncPost | tumblr/sync.go:102-165 | a stored external id, an unparsable date or a failing posts table returns false and changes nothing; otherwise exactly one post row is appended, with the given status and the next id; afterwards the gate skips the post; subscriptions never change; tags change only for status "added"; the invariant is kept |
| SyncSpec.AfterInsert | tumblr/sync.go:120-164 | the post rows and subscriptions stay; tags change only for "added"; the photo rows and the outcome are those of the children step, since tagging touches neither; an unknown type fails without a child |
| SyncSpec.AddedPostTagged | tumblr/sync.go:156-164 | an "added" post reported stored, with both tag tables working, carries every one of its remote tags |
| SyncSpec.UnsupportedKindKeepsPost | tumblr/sync.go:151-153 | an unknown type keeps the new post row, adds nothing else, returns false, and from then on the gate skips it |
| SyncSpec.PostInserted | tumblr/sync.go:102-118 | a post that passes the gate and parses has its row appended under the next id with the given status, and the rest of `syncBlogPost` runs on the store holding that row |
| SyncSpec.LinkPostChild | tumblr/sync.go:121-127 | a link post gets one link row (built by `createLink`, sync.go:187-189) that points at the post and carries the remote URL; it reports true exactly when the links table takes it, and otherwise nothing more changes |
| SyncSpec.TextPostChild | tumblr/sync.go:128-134 | a text post gets one text row (built by `createText`, sync.go:191-193) that points at the post and carries the remote title and body; true exactly when the texts table takes it |
| SyncSpec.VideoPostChild | tumblr/sync.go:144-150 | a video post whose row `createVideo` (sync.go:195-201) builds: an invalid video or thumbnail URL or a failing videos table changes nothing more and reports false; otherwise one video row pointing at the post with both remote URLs goes in and stays even if a download fails |
| SyncSpec.PhotoPostFanOut | tumblr/sync.go:135-143 | a photo post adds at most one photo row per remote photo, in order, all pointing at the new post, with every one in when it returns true |
| SyncSpec.FetchesSnoc | tumblr/sync.go:72 | appending a call adds it to the listing requests exactly when it is one |
| SyncSpec.FollowUpNoFetch | tumblr/sync.go:79 | a delete or an unlike is not a listing request |
| SyncSpec.FetchCallsAt | tumblr/sync.go:70-75 | the i-th page request of a walk asks for the i-th offset with limit 20 |
| SyncSpec.FetchCallsStep | tumblr/sync.go:70 | one more page of a walk is one more request |
| SyncSpec.OffsetsStep | tumblr/sync.go:70 | the offsets from `o` are `o` and the offsets from `o + 20` |
| SyncSpec.OffsetsAt | tumblr/sync.go:70 | the offsets are `o, o+20, …` below the total: ceil((total - o)/20) of them, none when `total <= o` |
| SyncSpec.PageOffsets | tumblr/sync.go:68-75 | for a total `n` the walk visits 0, 20, 40, … below `n`: ceil(n/20) pages, none when `n <= 0` |
| SyncSpec.SyncItems | tumblr/sync.go:76-81 | the loop over a page only adds posts, never touches subscriptions, never touches tags on the likes walk, and keeps the invariant |
| SyncSpec.ItemsSettle | tumblr/sync.go:76-81 | after the loop every post of the page is skipped by the gate |
| SyncSpec.ItemsFetches | tumblr/sync.go:76-81 | the loop over a page makes no listing request |
| SyncSpec.FollowUps | tumblr/sync.go:79 | one follow-up per post |
| SyncSpec.StoredAtStep | tumblr/sync.go:76-81 | the first post is synced on the store as it is, and each later post on the store the earlier turns left |
| SyncSpec.ItemsFollowUps | tumblr/sync.go:76-81 | the loop only appends to the log, and what it appends is one delete (blog walk) or unlike (likes walk) for exactly those posts for which `syncBlogPost` returned true at their turn, in page order |
| SyncSpec.PagesSettledGrows | tumblr/sync.go:103-106 | pages whose posts the gate skips stay so as posts are added |
| SyncSpec.Walk | tumblr/sync.go:68-83 | the walk only adds posts, never touches subscriptions, and keeps the invariant |
| SyncSpec.PagedWalk | tumblr/sync.go:70-82 | the offset loop run with any turn that agrees with one page of `Walk` ends where `Walk` ends |
| SyncSpec.WalkFetches | tumblr/sync.go:68-100 | a walk makes one page request per offset, in offset order |
| SyncSpec.WalkSettles | tumblr/sync.go:68-100 | after a walk the gate skips every post on its pages |
| SyncSpec.SyncContent | tumblr/sync.go:19-28 | a sync only adds posts and never touches subscriptions |
| SyncSpec.SyncFetches | tumblr/sync.go:19-28 | the listing requests of a sync are the post probe, a page per offset below the post total, the like probe, a page per offset below the like total; each total is read once, before its loop |
| SyncSpec.SettledItemsUnchanged | tumblr/sync.go:103-106 | a page of skipped posts changes nothing and makes no call |
| SyncSpec.SettledWalkOnlyFetches | tumblr/sync.go:68-83 | a walk over skipped posts changes nothing and makes only its page requests |
| SyncSpec.SyncTwice | tumblr/sync.go:19-28 | a second sync in the same environment (the same failing tables and downloads) and against the same answers changes no table and makes only the probes and page requests, so nothing is deleted or unliked twice |
| SyncSpec.Imported | tumblr/sync.go:44-52 | one row per blog |
| SyncSpec.SubscriptionOf | tumblr/sync.go:45-51 | the row for a followed blog: source "tumblr", the blog's name, URL, description and title, no id yet; ImportedAt and SubsDownReplaces give the rows it becomes |
| SyncSpec.ImportedAt | tumblr/sync.go:45-51 | row i is blog i as a "tumblr" subscription under id `first + i` |
| SyncSpec.ImportedConcat | tumblr/sync.go:38-53 | importing two lists in a row is importing their concatenation |
| SyncSpec.ImportsStep | tumblr/sync.go:38-53 | two pages of inserts in a row are one batch |
| SyncSpec.AddBlogs | tumblr/sync.go:44-52 | only subscriptions and their counter change; the blogs are appended in order under fresh ids, or nothing changes when the table fails |
| SyncSpec.FollowingCallsAt | tumblr/sync.go:38-43 | the i-th page request asks for the i-th offset |
| SyncSpec.FollowingCallsStep | tumblr/sync.go:38 | one more page is one more request |
| SyncSpec.SubsWalk | tumblr/sync.go:38-53 | one page request per offset, and only subscriptions change |
| SyncSpec.PagedSubsWalk | tumblr/sync.go:38-53 | the offset loop run with any turn that agrees with one page of `SubsWalk` ends where `SubsWalk` ends |
| SyncSpec.PagedImports | tumblr/sync.go:38-53 | when every turn appends the rows of its page, the loop appends the rows of all pages, in page order, under consecutive ids |
| SyncSpec.SubsWalkImports | tumblr/sync.go:38-53 | the loop appends the followed blogs in page order under fresh ids |
| SyncSpec.SubsDownSpec | tumblr/sync.go:31-54 | one probe, then a page request per offset; afterwards subscriptions hold exactly the followed blogs, in order |
| SyncSpec.SubsDownReplaces | tumblr/sync.go:35-52 | one row per followed blog, marked "tumblr", and none of the rows that were there before |
| SyncSpec.FreshRowsReplace | tumblr/sync.go:35-52 | rows imported under ids past the counter of a numbered table are none of its old rows, one per blog in order, each marked "tumblr" |
| SyncSpec.FollowCalls | tumblr/sync.go:63-65 | one follow per subscription |
| SyncSpec.FollowCallsInOrder | tumblr/sync.go:63-65 | the follows go out in list order, each with its subscription's URL |
| Sync.Syncer.constructor | tumblr/sync.go:11-16 | the syncer holds its blog name, client and repository |
| Sync.Syncer.SyncBlogPost | tumblr/sync.go:102-165 | the store changes, and the result is, as `SyncPost` says |
| Sync.Syncer.AttachChildren | tumblr/sync.go:120-154 | the switch and the photo loop change the store as `AddChildren` says |
| Sync.Syncer.AttachPhotos | tumblr/sync.go:135-143 | the photo loop, stopping at the first failing photo, changes the store as `AddPhotos` says |
| Sync.Syncer.AttachTags | tumblr/sync.go:161-163 | the tag loop changes the store as `AddTags` says, so AddTagsPairs applies to it |
| Sync.Syncer.SyncBlogPosts | tumblr/sync.go:68-83 | the store and the call log end as `Walk` over the blog says |
| Sync.Syncer.PageBlogPosts | tumblr/sync.go:70-82 | the offset loop applies one turn per offset `0, 20, …` below the total |
| Sync.Syncer.SyncBlogWindow | tumblr/sync.go:71-81 | one turn: the page request at the offset, then the loop over its posts, as `Turn` says |
| Sync.Syncer.SyncBlogPage | tumblr/sync.go:76-81 | the loop over the posts of a page changes the store and the call log as `SyncItems` says |
| Sync.Syncer.SyncBlogItem | tumblr/sync.go:77-80 | the post is stored as "added" and deleted remotely exactly when it was stored |
| Sync.Syncer.SyncLikes | tumblr/sync.go:85-100 | the store and the call log end as `Walk` over the likes says |
| Sync.Syncer.PageLikes | tumblr/sync.go:87-99 | the offset loop applies one turn per offset `0, 20, …` below the total |
| Sync.Syncer.SyncLikesWindow | tumblr/sync.go:88-98 | one turn: the likes request at the offset, then the loop over its posts, as `Turn` says |
| Sync.Syncer.SyncLikesPage | tumblr/sync.go:93-98 | the loop over the liked posts of a page changes the store and the call log as `SyncItems` says |
| Sync.Syncer.SyncLikesItem | tumblr/sync.go:94-97 | the post is stored as "queued" and unliked exactly when it was stored |
| Sync.Syncer.Sync | tumblr/sync.go:19-28 | the store and the call log end as `SyncContent` says |
| Sync.Syncer.SubsDown | tumblr/sync.go:31-54 | the store and the call log end as `SubsDownSpec` says |
| Sync.Syncer.PageFollowing | tumblr/sync.go:38-53 | the offset loop applies one turn per offset `0, 20, …` below the total |
| Sync.Syncer.ImportBlogs | tumblr/sync.go:44-52 | the loop over the blogs of a page changes the store as `AddBlogs` says |
| Sync.Syncer.SubsUp | tumblr/sync.go:57-66 | one follow per stored subscription URL, in list order; a listing error is returned and nothing is followed |

## Left out

- HTTP, OAuth and request signing (tumblr/client.go) are not modelled. The client only logs the calls of its interface, and the remote answers are a fixed function of the request.
- Because the remote answers are fixed, a delete or unlike does not shift later pages the way it would on Tumblr.
- `download` writes no file contents, and the model keeps no set of files. `downloads` logs attempts, not files: each attempt is logged together with its outcome, which the environment decides. The file is created before the GET, so a download that fails in the GET or the copy leaves an empty or partial file, while one that fails in `os.Create` (a missing media folder, say) leaves none. The model does not tell these failures apart.
- `time.Parse` with the layout "2006-01-02 15:04:05 MST" is a parameter: a partial function the model does not look into.
- The `CreatedAt` and `UpdatedAt` timestamps from `time.Now` are left out.
- `url.ParseRequestURI` is modelled only as far as its top-level decisions: empty URL, control characters, `*`, scheme detection, and the absolute-path rule for URLs without a scheme. The authority and port checks after a scheme are left out, and so is the percent-escape check of the path, with or without a scheme. So every URL with a valid scheme is accepted, and so is every URL that starts with `/` and holds no control character (Go refuses `/%zz` as an invalid escape).
- `RequestUri.ErrorText` gives the unquoted `url.Error` text the tests expect (`parse : empty url`). That is the format of Go before 1.14; newer Go quotes the URL (`parse "": empty url`).
- `filepath.Join` is modelled as joining with "/", without its path cleaning. The media folder, read from configuration, is a field of the environment.
- SQL text, the schema statements, sqlx and SQLite are replaced by in-memory tables. `ListSubscriptions` returns insertion order, as the tests expect, although the query has no ORDER BY.
- Table failures are fixed per table for the whole run: a table the environment marks as failing refuses every statement, and any other table accepts every statement its constraints allow. A failure that comes and goes is not modelled. So the outcome of tags.go:35-39 cannot happen: there `AddTag` succeeds, the second `findTag` fails, the new tag row stays, no pair is added and the error is returned. `Media.CreateAndPair` and `MediaRepo.Repository.AddTagToPost` prove that branch dead only under this assumption. `SyncSpec.SyncTwice` likewise assumes the same environment on both runs.
- A failing `LastInsertId` after a successful insert is not modelled. Every failure happens before the row is written.
- Ids are unbounded naturals. The 64-bit `LastInsertId` and its conversion to `uint` are not modelled.
- The logging through `fmt.Printf` is left out.
- Sync.Syncer.SubsUp: the Go code panics when the list cannot be read. Here the error is returned and nothing is followed.
- The status of synced blog posts is "added", as the code writes it; the comment on `Post.Status` names "approved" and "queued".
- The counts of the remote pages (`TotalPosts`, `LikedCount`, `TotalBlogs`) are read only from the probe. The counts returned with each page are ignored, as in the code.
- The last test case of `TestPhotoFileName`, `TestVideoFileName` and `TestVideoThumbnailFileName` is not proved as an example. Each uses a long tumblr media URL. `UrlExtension.ExtensionOfEnding` covers the `http://` form in general.
- A dot inside a query changes the extension the regular expression finds (for example `.../a.jpg?x=b.png` yields ".png"). `UrlExtension.QueryWithoutDotIsIgnored` is stated only for queries without a dot, because that is all the code gives.
