# Blog platform core, modelled in Dafny

This project models the core of a small blogging platform built on Next.js and MongoDB. Users write posts in a Markdown editor and tag them. Posts can be up- or down-voted. Comments nest as replies. The home page shows a paged feed with a tag filter and a list of popular tags.

The model covers these parts:

- **Votes** (`votes.dfy`). This is the vote endpoint. A `Ledger` class holds the vote records and each post's `upvotes` tally. `Cast` follows the route's branches:
  - the same vote again retracts it;
  - the opposite vote flips it;
  - a first vote records it.

  The ledger invariant says that every stored tally equals the sum of the votes recorded for that post. `Cast` preserves it.
- **Comments** (`comments.dfy`). This is the comment endpoint.
  - GET turns the newest-first list of a post's comments into a reply tree, in two passes over an id-keyed map. The model proves which comment ends up where: replies sit under their parent, orphans are dropped, each comment is placed at most once, and order is kept.
  - POST is a `CommentStore` class.
- **Posts** (`posts_api.dfy`). This is the post endpoint.
  - GET covers the page and limit parameters, the tag and author filter, skip-and-limit windowing, the pagination record and the streamed event order.
  - POST covers the field checks, the image loop with its size limit, and a `PostStore` class that saves the new post.
- **Post editor** (`editor.dfy`). This is the new-post form:
  - the Markdown toolbar's `insertText`, with block toggles, inline markers, and wrapping or unwrapping a selection;
  - the tag input and tag removal;
  - image selection and removal.

  The form is a `NewPostForm` class.
- **Home feed** (`home_feed.dfy`):
  - the excerpt;
  - the feed URL;
  - `fetchPosts` on a `Feed` class;
  - the popular-tag ranking;
  - the optimistic vote update.
- **Utilities** (`utils.dfy`): `truncateText`, `generateSlug`, `validateEmail` and `validateUsername`. The two validators are proved equal to an explicit regular-expression matcher (`regex.dfy`).
- **Data models** (`models.dfy`): the Vote, Comment and Post schemas, with their validation rules and the normalisation the Post schema applies on save.
- **Supporting modules**:
  - `js_string.dfy`: the JavaScript string operations the code relies on (`substring`, `indexOf`, `lastIndexOf`, `trim`, `toLowerCase`), with JavaScript's clamping rules;
  - `sessions.dfy`: resolving the signed-in user by e-mail or by id.

The database, the HTTP layer and the browser are inputs to the model:

- the session, the user table and the stored documents are parameters;
- a file's size and the object URL created for it are parameters;
- a parsed response body is a parameter.

## Model

| member | source | states |
|---|---|---|
| JsString.Substring | src/lib/utils.ts:18 | `substring` with in-range bounds is the slice between them, and swapped bounds give the same slice |
| JsString.IndexOf | src/app/posts/new/page.tsx:101 | `indexOf` from a clamped start returns the first occurrence at or after it, or -1 when there is none |
| JsString.LastIndexOf | src/app/posts/new/page.tsx:100 | `lastIndexOf` returns the last occurrence at or before the clamped position, or -1, and no later position up to that point holds the character |
| JsString.TrimCutsOnlyWhitespace | src/models/Post.ts:9-15 | the result is a slice of the input with no leading or trailing whitespace, and everything cut off before and after it is whitespace |
| JsString.Trim | src/models/Post.ts:9-15 | the result has no leading or trailing whitespace |
| JsString.TrimIdempotent | src/models/Post.ts:9-15 | trimming twice equals trimming once |
| JsString.LowerTrimCommute | src/models/Post.ts:25-29 | lower-casing and trimming commute, so the order the tag setters apply them in does not matter |
| JsString.ToLower | src/lib/utils.ts:23 | the same length, with each character lower-cased independently |
| Utils.TruncateText | src/lib/utils.ts:16-19 | text within the limit is unchanged; longer text keeps the first `length` characters and ends in "..." |
| Utils.GenerateSlugShape | src/lib/utils.ts:21-26 | a slug holds only a-z, 0-9 and single dashes, with no dash at either end |
| Utils.GenerateSlugIdempotent | src/lib/utils.ts:21-26 | slugifying a slug leaves it unchanged |
| Utils.GenerateSlugKeepsAlphanumerics | src/lib/utils.ts:21-26 | removing the dashes from the slug gives exactly the lower-cased input's letters and digits, in order |
| Utils.EmailPatternMeaning | src/lib/utils.ts:28-31 | the e-mail pattern matches exactly the strings that are "local@domain.tld" with no whitespace and a single '@' |
| Utils.ValidateEmail | src/lib/utils.ts:28-31 | the validator accepts exactly the well-formed addresses |
| Utils.ValidateUsername | src/lib/utils.ts:33-36 | accepted exactly when 3 to 30 characters long and every character is a letter, digit or underscore |
| Models.NormalizeTag | src/models/Post.ts:25-29 | a stored tag is trimmed, lower-cased and no longer than the input |
| Models.NormalizeTagIdempotent | src/models/Post.ts:25-29 | normalising a normal tag changes nothing |
| Models.NewPost | src/app/api/posts/route.ts:203-209 | a new post has a trimmed title, normalised tags, zero upvotes and no image |
| Models.NewPostStable | src/models/Post.ts:9-33 | saving a saved post again changes neither its title nor its tags |
| Sessions.ResolveUser | src/app/api/votes/route.ts:34-48 | the user is looked up by e-mail when the session has one and by id otherwise; a found user has a non-empty id |
| Votes.FindVote | src/app/api/votes/route.ts:59-62 | the index found addresses this user and post, and none is found only when no record does |
| Votes.ApplyVoteTally | src/app/api/votes/route.ts:65-91 | the post's vote sum changes by exactly the route's increment (retract, flip or new), and other posts' sums are unchanged |
| Votes.ApplyVoteUnique | src/models/Vote.ts:24 | the unique (user, post) index still holds after any vote |
| Votes.ApplyVoteSpec | src/app/api/votes/route.ts:65-91 | the user's vote on the post becomes none when repeated, or else the new value; every other pair's vote is unchanged |
| Votes.ApplyVotePreservesInvariant | src/app/api/votes/route.ts:65-91 | every stored tally still equals the sum of its post's votes |
| Votes.RetractionLaw | src/app/api/votes/route.ts:66-71 | voting the same way twice restores the votes and nets a zero tally change |
| Votes.FlipLaw | src/app/api/votes/route.ts:72-79 | an upvote followed by a downvote leaves a downvote and a net change of -1 |
| Votes.Ledger.constructor | src/models/Vote.ts:4-18 | no votes, and every post's tally zero |
| Votes.Ledger.Cast | src/app/api/votes/route.ts:12-106 | the statuses 401, 400, 404 (user) and 404 (post) in the route's order, state unchanged on error; on success the votes and tally are updated and the reported upvotes equal the post's vote sum |
| Comments.IndexComments | src/app/api/comments/route.ts:30-35 | one node per comment id, each with no replies yet |
| Comments.LinkReplies | src/app/api/comments/route.ts:37-47 | each node's replies are its children in list order, and the roots are the comments with no parent |
| Comments.BuildTree | src/app/api/comments/route.ts:30-47 | the assembled tree maps every id to its comment and children, with the parentless comments as roots |
| Comments.GetComments | src/app/api/comments/route.ts:14-49 | a missing post id gives 400; otherwise the response is the tree of the fetched comments |
| Comments.Placement | src/app/api/comments/route.ts:37-47 | a comment appears among a parent's replies exactly when that is its parent |
| Comments.OrphanDropped | src/app/api/comments/route.ts:39-43 | a reply whose parent is not among the post's comments appears neither as a root nor under any node |
| Comments.AtMostOnce | src/app/api/comments/route.ts:37-47 | no comment appears twice under a parent, nor under two parents |
| Comments.ChildrenOfNewestFirst | src/app/api/comments/route.ts:24-27 | replies keep the newest-first order of the query |
| Comments.ShownIffRooted | src/app/api/comments/route.ts:37-49 | a comment is reachable from the roots exactly when its chain of parents reaches a root |
| Comments.SelfParentedVanishes | src/app/api/comments/route.ts:37-49 | a comment that is its own parent is never shown |
| Comments.CommentStore.Create | src/app/api/comments/route.ts:59-112 | 401, 400 and 404 in the route's order; a saved comment carries the resolved user and an optional parent, and is appended |
| PostsApi.ParamOr | src/app/api/posts/route.ts:21-22 | an absent parameter falls back to its default |
| PostsApi.TotalPages | src/app/api/posts/route.ts:73 | the smallest page count whose pages cover all matching posts |
| PostsApi.PaginationFor | src/app/api/posts/route.ts:86-97 | there is a next page exactly when the page is before the last, and a previous one exactly when the page is after the first |
| PostsApi.HasNextMeansMore | src/app/api/posts/route.ts:86-97 | `hasNextPage` holds exactly when posts remain after this page's window |
| PostsApi.MatchingMembers | src/app/api/posts/route.ts:28-54 | a post is selected exactly when it carries the tag and belongs to the author, where those filters are given |
| PostsApi.ListPosts | src/app/api/posts/route.ts:15-107 | an author filter without a session or with an unknown author gives a single error event; otherwise a window of the matching posts, then pagination, then end |
| PostsApi.ListedPostsMatch | src/app/api/posts/route.ts:61-71 | every listed post matches the query |
| PostsApi.PagesAreConsecutive | src/app/api/posts/route.ts:25 | page n followed by page n+1 is the window of twice the limit at page n's offset |
| PostsApi.CollectImages | src/app/api/posts/route.ts:178-201 | the loop stops with "too large" exactly when some non-empty image file exceeds 5 MB; otherwise it keeps exactly the non-empty files |
| PostsApi.TagsField | src/app/api/posts/route.ts:167-176 | the tags are the parsed list, or empty when none are sent or the string does not parse |
| PostsApi.CreateOutcome | src/app/api/posts/route.ts:128-224 | 401, 404, 400 and the oversize error in the route's order; the post created with a trimmed title, the content as sent and normalised tags is valid, and saving fails exactly on an invalid title or a missing user id |
| PostsApi.Respond | src/app/api/posts/route.ts:120-224 | the route's step-by-step checks give exactly `CreateOutcome` |
| PostsApi.PostStore.Create | src/app/api/posts/route.ts:203-217 | the store gains the new post at the front exactly when it is created; the store stays valid |
| Editor.InsertTextLineStartCounterexample | src/app/posts/new/page.tsx:98-116 | with the cursor at 0 before a leading newline, the code as written inserts the heading after that newline; the corrected version inserts it at 0 |
| Editor.InsertTextAsWrittenAgrees | src/app/posts/new/page.tsx:100 | except for a line format with the cursor at 0 before a leading newline, the code as written and the corrected version agree |
| Editor.BlockToggle | src/app/posts/new/page.tsx:98-116 | a line-prefix action adds the prefix to the cursor's line, or strips it when present, and leaves every other line alone |
| Editor.BlockToggleTwice | src/app/posts/new/page.tsx:98-116 | toggling a line format twice on the same line restores the text |
| Editor.InlineInsert | src/app/posts/new/page.tsx:119-128 | with no selection, the markers are inserted at the cursor, which ends between them |
| Editor.WrapSelection | src/app/posts/new/page.tsx:146-157 | an unformatted selection is wrapped in the markers and stays selected |
| Editor.UnwrapSelection | src/app/posts/new/page.tsx:131-145 | a selection already wrapped in the markers is unwrapped |
| Editor.WrapThenUnwrap | src/app/posts/new/page.tsx:131-157 | applying the same inline format twice to a selection restores the text |
| Editor.LinkWithoutSelectionAsWritten | src/app/posts/new/page.tsx:181-185 | as written, with no selection the placeholder "[Link text](url)" is inserted twice, because the closing marker defaults to the opening one, and "Link text" in the first copy is selected |
| Editor.LinkWithoutSelection | src/app/posts/new/page.tsx:181-185 | corrected, with no selection one placeholder is inserted and its "Link text" selected |
| Editor.LinkWithSelection | src/app/posts/new/page.tsx:177-180 | a selection becomes the text of a link to "url", the same as written and corrected |
| Editor.ToolbarAsWrittenAgrees | src/app/posts/new/page.tsx:160-191 | the toolbar as written and as corrected agree on every input except a line format at 0 before a leading newline and the link button with nothing selected |
| Editor.ToolbarLineStartCounterexample | src/app/posts/new/page.tsx:160-169 | the heading button at 0 before a leading newline gives "\n# \n\nabc" as written and "# \nabc" corrected |
| Editor.EnteredTag | src/app/posts/new/page.tsx:344-353 | the entered tag is the normalised input, and empty exactly when the input is blank |
| Editor.TagKeyDownEffect | src/app/posts/new/page.tsx:344-353 | Enter on a non-blank new tag appends it and clears the field; anything else changes nothing |
| Editor.TagKeyDownKeepsInvariant | src/app/posts/new/page.tsx:344-353 | the tag list stays duplicate-free and normalised |
| Editor.WithoutTagMembers | src/app/posts/new/page.tsx:355-357 | after removal, the list holds exactly the other tags |
| Editor.WithoutTagAt | src/app/posts/new/page.tsx:355-357 | in a duplicate-free list, removing a tag removes exactly its one position |
| Editor.WithoutTagKeepsInvariant | src/app/posts/new/page.tsx:355-357 | removal keeps the tag list duplicate-free and normalised |
| Editor.RemoveImageKeepsInvariant | src/app/posts/new/page.tsx:286-300 | removing an image keeps files and previews paired and within the size limits |
| Editor.NewPostForm.ToolbarClick | src/app/posts/new/page.tsx:160-191 | the content and selection become those of the corrected toolbar edit, and nothing else changes |
| Editor.NewPostForm.TagInputKeyDown | src/app/posts/new/page.tsx:344-353 | tags and input become the key handler's result; the form stays valid |
| Editor.NewPostForm.RemoveTag | src/app/posts/new/page.tsx:355-357 | the tags lose the removed tag and nothing else changes |
| Editor.NewPostForm.HandleImageChange | src/app/posts/new/page.tsx:249-284 | over the total limit nothing is added and the error is set; otherwise the admissible files and their previews are appended and the error cleared |
| Editor.NewPostForm.RemoveImage | src/app/posts/new/page.tsx:286-300 | the file and its preview at the index are removed together |
| HomeFeed.Excerpt | src/app/page.tsx:127 | content up to 200 characters is shown whole; longer content is cut to 200 characters plus "...", the same as `truncateText` |
| HomeFeed.OptimisticVote | src/app/page.tsx:441-445 | only the voted post's upvotes change, by the vote's value |
| HomeFeed.OptimisticVoteUndo | src/app/page.tsx:441-445 | applying the opposite value undoes the optimistic update |
| HomeFeed.OptimisticVoteTotal | src/app/page.tsx:441-445 | the feed's total changes by the value times the number of entries for that post |
| HomeFeed.PopularTagsRanked | src/app/page.tsx:423-432 | popular tags are distinct and listed by non-increasing count |
| HomeFeed.PopularTagsAreTop | src/app/page.tsx:423-432 | a tag left out means the list is full and every listed tag is used at least as often |
| HomeFeed.FeedUrlFiltersByTag | src/app/page.tsx:305-307 | the feed URL carries `tag=` exactly when a non-empty tag is selected |
| HomeFeed.FailureOf | src/app/page.tsx:321-329 | a response fails exactly when it is an HTTP error, unparseable, or carries a non-empty error |
| HomeFeed.Feed.FetchPosts | src/app/page.tsx:300-350 | on success the fetched posts replace or extend the list and the page advances; on failure the error is set and the page kept; loading flags end false |
| HomeFeed.Feed.FetchPopularTags | src/app/page.tsx:406-439 | a successful response replaces the popular tags with the ranking of its posts; a failure keeps them |
| HomeFeed.Feed.HandleVote | src/app/page.tsx:441-445 | the posts become the optimistic vote update and nothing else changes |

## Left out

- Strings are sequences of UTF-16 code units. Surrogate pairs and Unicode-aware operations are not modelled.
- JsString.ToLower: lower-cases ASCII letters only. JavaScript's `toLowerCase` also maps non-ASCII letters, and this model does not.
- Authentication is an input. NextAuth's session lookup and the user collection are parameters of the routes (`Session`, `Users`).
- Database access is not modelled. Mongo queries, `populate`, `lean`, sorting and `countDocuments` are not modelled. Each route receives the stored documents as a sequence, newest first where the route sorts by creation date.
- Concurrency is not modelled, so neither is the race between two votes on the unique index. Operations are modelled as atomic.
- The server-sent event framing and the `ReadableStream` plumbing are not modelled. GET `/api/posts` is modelled as its sequence of events.
- PostsApi.ListPosts: requires a positive limit. With `limit=0` JavaScript computes `NaN` pages. A negative limit is passed to the database, which returns up to its absolute value of posts, and `totalPages` comes out zero or negative. Neither case is modelled.
- PostsApi.ParamOr: a malformed `page` or `limit` makes `parseInt` return `NaN`. That case is not modelled; a parameter is present as an integer or absent.
- PostsApi.ListPosts: a page below 1 is modelled as an aborted stream. A negative skip makes the database call throw, and the stream's error is reported with status 200.
- PostsApi.CreateOutcome: an image's content is not converted to base64 or stored as a data URL; only its size is checked. The schema's strict mode drops the `imageUrls` field, so no image reaches the saved post.
- PostsApi.TagsField: `JSON.parse` is a parameter (`parsed`, absent when the string does not parse). As in the route's try/catch, an unparseable tags string gives an empty tag list. A parsed value that is not a list of strings is not modelled.
- Editor: the textarea's `setSelectionRange`, `focus` and `setTimeout` are not modelled. Neither is the case of a missing textarea. The new selection is returned instead.
- Editor.NewPostForm.ToolbarClick: follows the corrected toolbar (`Editor.ToolbarEdit`), not `handleToolbarClick` as written. The program as written is `Editor.ToolbarEditAsWritten`. The two differ on exactly the two findings below: a line format with the cursor at 0 before a leading newline, and the link button with nothing selected (see `Editor.ToolbarAsWrittenAgrees`).
- Ids are assumed to be well-formed ObjectIds. A malformed `postId` or `parentId` makes Mongoose throw a cast error, and the routes' catch blocks answer 500. Votes.Ledger.Cast answers 404 for such a post id instead. Comments.CommentStore.Create saves the comment, and Comments.GetComments returns the tree of the comments it is given. The cast-error path is not modelled.
- The keyboard shortcuts of the new-post page are not modelled. They call the same `insertText`.
- Editor.NewPostForm.HandleImageChange: `URL.createObjectURL` is a parameter (`urls`). `revokeObjectURL` in `removeImage` is not modelled. The per-file error messages set in the loop are overwritten by the final clear, and the model keeps only that final value.
- The five-tag limit on the new-post page is enforced only by disabling the input. The key handler does not check it, and neither does the model.
- HomeFeed.FeedUrl: the tag is not URL-encoded, matching the code.
- HomeFeed.Feed.FetchPosts: `fetch` and `response.json()` are parameters (`FeedResponse`). GET `/api/posts` always answers with an event stream (`data: …` lines), which `response.json()` cannot parse. Against this server, then, `fetchPosts` and `fetchPopularTags` always end in their failure branch, and their success branch describes a JSON body the server never sends. The model keeps both branches, as the page code has them.
- HomeFeed.Feed.FetchPopularTags: for the same reason, the popular tags keep their initial empty value against this server.
- The stale `page` value captured by the infinite-scroll observer is not modelled. Neither are the effects that re-run on a filter or tab change.
- HomeFeed.PopularTags: the order among tags of equal count is not stated. JavaScript sorts stably over the object's key order, which lists integer-like keys (such as "2024") first and the rest by first appearance. The model proves only that counts do not increase down the list. JavaScript also mis-tallies tags that name `Object.prototype` members (such as "constructor"), which is not modelled.
- The post card's own vote request is not modelled. Its result only feeds `handleVote`.

## Findings

| source | as written | input that shows it | evidently intended | confidence | as-written member | corrected member |
|---|---|---|---|---|---|---|
| src/app/posts/new/page.tsx:100 | the line start is `lastIndexOf('\n', start - 1) + 1`; at `start == 0` the search position -1 is clamped to 0, so a newline at index 0 is found | text "\nabc", cursor at 0, heading prefix "# " | the line start is 0, so the text becomes "# \nabc" | not executed | Editor.InsertTextLineStartCounterexample and Editor.ToolbarLineStartCounterexample (on Editor.InsertTextAsWritten and Editor.ToolbarEditAsWritten) | Editor.InsertText and Editor.ToolbarEdit, with Editor.BlockToggle and Editor.BlockToggleTwice |
| src/app/posts/new/page.tsx:181 | `insertText('[Link text](url)')` leaves out the closing marker, which defaults to the opening one (line 87), so the placeholder is inserted twice | the link button with nothing selected, on any text | one placeholder, whose "Link text" the following `setSelectionRange(start + 1, start + 10)` selects | not executed | Editor.LinkWithoutSelectionAsWritten (on Editor.ToolbarEditAsWritten) | Editor.LinkWithoutSelection (on Editor.ToolbarEdit) |
