# Yatube posts: a Dafny model of the request handlers

Yatube is a small blogging site. Authors publish posts, optionally in a
group, and readers browse paginated feeds. Logged-in users comment on
posts and follow authors, which gives them a personal feed. All of the
logic lives in the handlers of `yatube/posts/views.py`. They decide what
each request reads from the social graph and what it writes back.

This project models those handlers over an abstract in-memory store. The
store (`Models.State`) holds:

- the set of usernames;
- the groups, each with a slug, a title and a description;
- the posts in insertion order, each with an id, author, text, optional
  group and optional image;
- the comments;
- the set of follow edges `Follow(user, author)`.

Each handler is a pure function. A read handler (`Views.Index`,
`Views.GroupPosts`, `Views.Profile`, `Views.PostDetail`,
`Views.FollowIndex`) returns its page context, or `NotFound` where the
source calls `get_object_or_404`. A write handler (`Views.PostCreate`,
`Views.PostEdit`, `Views.AddComment`, `Views.ProfileFollow`,
`Views.ProfileUnfollow`) returns a `Transition`: the new store plus the
response sent (a redirect to a named route, the post form rendered again,
or not found).

Pagination (`Pagination.GetPage`) cuts a list into pages of
`ElementQuantity = 10`. It follows the paginator that `get_page` builds,
with no orphans and an allowed empty first page. A missing or non-integer
page number gives page 1. A number below 1 or past the last page gives the
last page. There are `max(1, ceil(n / 10))` pages.

Modelling choices:

- Usernames and group slugs are unique in the store, so a user is
  identified by their username. `request.user != author` becomes a
  comparison of names.
- Form validity is an abstract boolean argument, `formValid`. It is the
  result of `form.is_valid()`. The field rules behind it are in
  `models.py`, which is not part of this model. A GET request builds an
  unbound form, which is invalid. So a GET on the create or edit page is a
  call with `formValid == false`.
- `Views.PostForm` holds the form's cleaned values. On edit, the post's
  text, group and image are replaced by them.
- A new post gets an id larger than every id in use (`Models.NextPostId`).
  This stands in for the database's auto-increment key. The post is
  appended to the stored sequence.
- `profile_unfollow` deletes through `filter(...)`, so an unknown username
  is a silent no-op and not a not-found response. `profile_follow` looks
  the user up and answers not found.
- `Models.Valid` states the store's integrity constraints: unique post ids
  and slugs, and every author, group, commented post and follow endpoint
  resolving. The `...KeepsValid` lemmas show that every write handler
  preserves them.

## Model

| member | source | states |
|---|---|---|
| Pagination.NumPages | yatube/posts/views.py:7-13 | the page count is at least 1 and is the least count of 10-item pages that holds all `n` items |
| Pagination.ResolvePageNumber | yatube/posts/views.py:10-13 | the chosen page is always between 1 and the page count; an in-range number is kept; a missing or non-integer number gives page 1; a number below 1 or past the end gives the last page |
| Pagination.PageAt | yatube/posts/views.py:10-13 | page p holds `min(10, n - (p-1)*10)` items; its j-th item is item `(p-1)*10 + j` of the list; no page of a non-empty list is empty |
| Pagination.GetPage | yatube/posts/views.py:7-13 | the page served is the one the request resolves to (`ResolvePageNumber`), and its items are exactly that window of the list; a page holds at most 10 items; every page but the last is full; it reports the page count and its own number, which lies in range |
| Pagination.ThirteenItems | yatube/posts/tests/test_views.py:213-237 | 13 items make 2 pages of 10 and 3 items; page 2 is the last three; pages 0 and 3 show page 2, and a missing number shows page 1 |
| Pagination.ItemOnPage | yatube/posts/views.py:10-13 | item i is on page `i/10 + 1` at position `i % 10`, so every item can be reached by paging |
| Pagination.PagesCoverList | yatube/posts/views.py:10-13 | laying pages 1 to the last end to end gives back exactly the list: the pages partition it, in order |
| Common.Filter | yatube/posts/views.py:114 | a queryset filter keeps exactly the elements that pass the test, with their multiplicity |
| Common.FilterAppend | yatube/posts/views.py:35 | filtering keeps the store's order: appending an item to the list appends it to the filtered list exactly when it passes |
| Models.PostStr | yatube/posts/tests/test_models.py:25-33 | a post's string form is a prefix of its text, at most 15 characters long, and is the whole text when that is no longer than 15 |
| Models.FindGroup | yatube/posts/views.py:23 | the lookup by slug returns a stored group with that slug, and fails exactly when no group has it |
| Models.FindGroupUnique | yatube/posts/views.py:23 | with unique slugs, the lookup returns the one group that has the slug |
| Models.PostById | yatube/posts/views.py:52 | the lookup by id returns a stored post with that id, and fails exactly when no post has it |
| Models.PostByIdUnique | yatube/posts/views.py:80 | with unique ids, the lookup returns the one post that has the id, at its position |
| Models.PostIndexAfterReplace | yatube/posts/views.py:96 | replacing a post with one of the same id keeps the lookup of that id at the same position |
| Models.NextPostId | yatube/posts/views.py:71-73 | the id given to a new post is larger than every id in use, so no stored post has it |
| Models.GroupPostList | yatube/posts/views.py:24 | a group's post list holds exactly the stored posts in that group |
| Models.AuthorPostList | yatube/posts/views.py:35 | an author's post list holds exactly the stored posts by that author |
| Models.FollowedPostList | yatube/posts/views.py:114 | the followed list holds exactly the stored posts whose author the user follows |
| Models.PostComments | yatube/posts/views.py:54 | a post's comment list holds exactly the stored comments on that post, each as many times as it is stored |
| Views.Index | yatube/posts/views.py:16-19 | the home page is the requested page of the whole post list: at most 10 stored posts, the window at the resolved page number, with the page count of the whole list |
| Views.GroupPosts | yatube/posts/views.py:22-30 | not found exactly when no group has the slug; otherwise it returns that group and a page of posts, all of which are in that group |
| Views.Profile | yatube/posts/views.py:33-48 | not found exactly when no user has the name; otherwise a page of only that author's posts; `following` is true exactly when the visitor is logged in and follows the author |
| Views.PostDetail | yatube/posts/views.py:51-60 | not found exactly when no post has the id; otherwise that post and its comment list, with every stored comment on it, duplicates included |
| Views.PostCreate | yatube/posts/views.py:63-75 | a valid form appends one post, with a fresh id, the requester as author and the form's fields, then redirects to the requester's profile; an invalid form re-renders and stores nothing; nothing but the post list changes |
| Views.PostEdit | yatube/posts/views.py:78-97 | not found exactly when no post has the id; a non-author is redirected to the post page with the store unchanged; an invalid form re-renders with nothing changed; the author with a valid form gets the post's text, group and image replaced in place; the post count, every id and every author stay fixed, and other posts are untouched |
| Views.AddComment | yatube/posts/views.py:100-109 | not found when no post has the id; otherwise it always redirects to the post page; a valid form appends exactly one comment by the requester on that post; an invalid one changes nothing |
| Views.FollowIndex | yatube/posts/views.py:112-121 | the feed page holds only stored posts whose author the requester follows, and is empty when the requester follows nobody |
| Views.ProfileFollow | yatube/posts/views.py:124-129 | not found, with nothing changed, when no user has the name; a self-follow changes nothing; otherwise the edge (requester, author) is present afterwards and no other edge is added or removed |
| Views.ProfileUnfollow | yatube/posts/views.py:132-138 | always redirects to the feed; the edge (requester, username) is absent afterwards; every other edge is untouched; an absent edge makes the call a no-op |
| Properties.FollowIdempotent | yatube/posts/views.py:127-128 | a second identical follow leaves the store and the response as the first one did |
| Properties.UnfollowIdempotent | yatube/posts/views.py:134-137 | a second identical unfollow changes nothing further |
| Properties.UnfollowUndoesFollow | yatube/posts/tests/test_subsribe.py:72-108 | unfollowing after a follow that created the edge restores the original store |
| Properties.FollowUndoesUnfollow | yatube/posts/tests/test_subsribe.py:72-108 | following again after unfollowing an existing edge to another user restores the original store |
| Properties.FollowKeepsNoSelfFollow | yatube/posts/views.py:127 | if the store has no self-follow edges, a follow does not create one |
| Properties.ProfileFlagTracksFollow | yatube/posts/views.py:37-42 | the profile's `following` flag is set after following another user and cleared after unfollowing, and is false for anonymous visitors |
| Properties.FeedScoping | yatube/posts/tests/test_subsribe.py:60-70 | the followed feed contains every post of a followed author and no post of an author the user does not follow |
| Properties.FeedPostReachable | yatube/posts/views.py:114-115 | every post by a followed author is on some page of the feed |
| Properties.GroupScoping | yatube/posts/tests/test_views.py:170-175 | a post outside group Y never shows on any page of group Y |
| Properties.GroupPostReachable | yatube/posts/views.py:24-25 | every post of a group is on some page of that group |
| Properties.ThirteenPostsOnEveryFeed | yatube/posts/tests/test_views.py:196-237 | with 13 posts by one author in one group, the index, group and profile pages each show 10 posts on page 1 and 3 on page 2 |
| Properties.IndexPostReachable | yatube/posts/views.py:16-19 | every stored post is on some page of the home page |
| Properties.IndexPageIsSlice | yatube/posts/tests/test_views.py:213-237 | page p of the home page is the slice of the post list from (p-1)*10 to min(p*10, n) |
| Properties.CommentShowsOnDetail | yatube/posts/tests/test_forms.py:123-136 | after a valid comment on an existing post, the post's detail page lists the earlier comments followed by the new one |
| Properties.CreateShowsOnProfile | yatube/posts/tests/test_forms.py:44-79 | a created post is appended to its author's profile list, and nothing else in that list changes |
| Properties.CreateKeepsValid | yatube/posts/views.py:70-73 | creating a post keeps the store's integrity constraints |
| Properties.EditKeepsValid | yatube/posts/views.py:90-96 | editing a post keeps the store's integrity constraints |
| Properties.CommentKeepsValid | yatube/posts/views.py:104-108 | adding a comment keeps the store's integrity constraints |
| Properties.FollowKeepsValid | yatube/posts/views.py:126-128 | following keeps the store's integrity constraints |
| Properties.UnfollowKeepsValid | yatube/posts/views.py:134-137 | unfollowing keeps the store's integrity constraints |

## Left out

- Newest-first ordering of posts: it comes from the Post model's `Meta`, which is not part of this model. Lists keep the store's sequence order.
- The home-page cache: `index` (yatube/posts/views.py:16-19) carries no cache decorator. The cache the URL tests clear is configured outside these handlers.
- `login_required` redirects for anonymous users. The protected handlers take the logged-in requester's name as an argument.
- Form field rules such as "text must not be empty": they live in `models.py`, which is not part of this model. `formValid` stands for `form.is_valid()`. For the integrity lemmas, `Properties.GroupChoiceExists` stands for the group field accepting only existing groups.
- Pagination clamping is an assumption about the framework's paginator, which is not part of this model. Below-range and past-the-end page numbers go to the last page; unreadable numbers go to page 1.
- Views.PostEdit: the cleaned image is taken as given. Whether an edit without a new upload keeps the old file is decided inside the form's cleaning, which is not modelled.
- Models.GroupStr: a group's string form is its title verbatim. It is a single field read with nothing to state beyond its body, so it carries no contract.
- Template rendering, URL routing, image storage paths, database cascades on delete, the form and comment-form objects placed in render contexts, and the constant `is_follow` flag of the followed feed.
