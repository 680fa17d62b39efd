/** Properties that relate several handler calls: following is idempotent
    and undone by unfollowing, the feeds are scoped to their group, author
    or followed authors and every post in them can be reached by paging,
    new posts show up on their author's profile, and every write keeps the
    store's integrity constraints. */
module Properties {
  import opened Common
  import opened Pagination
  import opened Models
  import opened Views

  predicate NoSelfFollow(st: State)
  {
    forall f :: f in st.follows ==> f.user != f.author
  }

  // ---- Following ----

  /** Following twice is following once. */
  lemma FollowIdempotent(st: State, requester: Username, username: Username)
    ensures var once := ProfileFollow(st, requester, username);
      ProfileFollow(once.state, requester, username) == once
  {
  }

  /** Unfollowing twice is unfollowing once. */
  lemma UnfollowIdempotent(st: State, requester: Username, username: Username)
    ensures var once := ProfileUnfollow(st, requester, username);
      ProfileUnfollow(once.state, requester, username) == once
  {
  }

  /** Unfollowing undoes a follow that created the edge. */
  lemma UnfollowUndoesFollow(st: State, requester: Username, username: Username)
    requires Follow(requester, username) !in st.follows
    ensures ProfileUnfollow(ProfileFollow(st, requester, username).state, requester, username).state == st
  {
  }

  /** Following again restores an edge that unfollowing removed. */
  lemma FollowUndoesUnfollow(st: State, requester: Username, username: Username)
    requires Valid(st)
    requires Follow(requester, username) in st.follows
    requires requester != username
    ensures ProfileFollow(ProfileUnfollow(st, requester, username).state, requester, username).state == st
  {
  }

  /** The follow handler never stores a self-follow. */
  lemma FollowKeepsNoSelfFollow(st: State, requester: Username, username: Username)
    requires NoSelfFollow(st)
    ensures NoSelfFollow(ProfileFollow(st, requester, username).state)
  {
  }

  /** The profile page's `following` flag tracks the follow and unfollow
      handlers: set after following someone else, clear after unfollowing. */
  lemma ProfileFlagTracksFollow(st: State, requester: Username, username: Username, page: PageRequest)
    requires username in st.users
    ensures requester != username ==>
      var r := Profile(ProfileFollow(st, requester, username).state, Authenticated(requester), username, page);
      r.Ok? && r.value.following
    ensures var r := Profile(ProfileUnfollow(st, requester, username).state, Authenticated(requester), username, page);
      r.Ok? && !r.value.following
    ensures var r := Profile(st, Anonymous, username, page);
      r.Ok? && !r.value.following
  {
  }

  // ---- Feeds ----

  /** A follower's feed holds every post of an author they follow and no
      post of an author they do not follow. */
  lemma FeedScoping(st: State, user: Username, author: Username, other: Username)
    requires Follow(user, author) in st.follows
    requires Follow(user, other) !in st.follows
    ensures forall p :: p in st.posts && p.author == author ==> p in FollowedPostList(st, user)
    ensures forall p :: p in st.posts && p.author == other ==> p !in FollowedPostList(st, user)
  {
  }

  /** Every post in the followed feed is on some page of `follow_index`. */
  lemma FeedPostReachable(st: State, user: Username, p: Post)
    requires p in st.posts
    requires Follow(user, p.author) in st.follows
    ensures exists k :: p in FollowIndex(st, user, Number(k)).objectList
  {
    var feed := FollowedPostList(st, user);
    assert p in feed;
    var i :| 0 <= i < |feed| && feed[i] == p;
    ItemOnPage(feed, i);
    var k := i / ElementQuantity + 1;
    assert FollowIndex(st, user, Number(k)).objectList[i % ElementQuantity] == p;
  }

  /** A post in group X never shows on the page of another group Y. */
  lemma GroupScoping(st: State, p: Post, slug: Slug, page: PageRequest)
    requires p.group != Some(slug)
    ensures var r := GroupPosts(st, slug, page);
      r.Ok? ==> p !in r.value.pageObj.objectList
  {
  }

  /** Every post of a group is on some page of that group. */
  lemma GroupPostReachable(st: State, p: Post, slug: Slug)
    requires HasGroup(st.groups, slug)
    requires p in st.posts && p.group == Some(slug)
    ensures exists k :: GroupPosts(st, slug, Number(k)).Ok? && p in GroupPosts(st, slug, Number(k)).value.pageObj.objectList
  {
    var list := GroupPostList(st, slug);
    assert p in list;
    var i :| 0 <= i < |list| && list[i] == p;
    ItemOnPage(list, i);
    var k := i / ElementQuantity + 1;
    assert GroupPosts(st, slug, Number(k)).value.pageObj.objectList[i % ElementQuantity] == p;
  }

  /** Thirteen posts by one author in one group: the index, the group page
      and the profile page each show ten posts on page one and three on
      page two. */
  lemma ThirteenPostsOnEveryFeed(st: State, author: Username, slug: Slug)
    requires |st.posts| == 13
    requires author in st.users && HasGroup(st.groups, slug)
    requires forall p :: p in st.posts ==> p.author == author && p.group == Some(slug)
    ensures |Index(st, Number(1)).objectList| == 10
    ensures |Index(st, Number(2)).objectList| == 3
    ensures |GroupPosts(st, slug, Number(1)).value.pageObj.objectList| == 10
    ensures |GroupPosts(st, slug, Number(2)).value.pageObj.objectList| == 3
    ensures |Profile(st, Anonymous, author, Number(1)).value.pageObj.objectList| == 10
    ensures |Profile(st, Anonymous, author, Number(2)).value.pageObj.objectList| == 3
  {
    FilterAll(st.posts, (p: Post) => p.group == Some(slug));
    FilterAll(st.posts, (p: Post) => p.author == author);
    ThirteenItems(st.posts);
  }

  /** Every stored post is on some page of the home page, and each page
      of the home page is the matching window of the post list. */
  lemma IndexPostReachable(st: State, i: nat)
    requires i < |st.posts|
    ensures exists k :: st.posts[i] in Index(st, Number(k)).objectList
  {
    ItemOnPage(st.posts, i);
    var k := i / ElementQuantity + 1;
    assert Index(st, Number(k)).objectList[i % ElementQuantity] == st.posts[i];
  }

  /** Page `p` of the home page is the slice of the post list from
      `(p - 1) * 10` up to `p * 10`, cut at the end of the list. */
  lemma IndexPageIsSlice(st: State, p: nat)
    requires 1 <= p <= NumPages(|st.posts|)
    ensures (p - 1) * ElementQuantity <= Min(p * ElementQuantity, |st.posts|)
    ensures Index(st, Number(p)).objectList == st.posts[(p - 1) * ElementQuantity .. Min(p * ElementQuantity, |st.posts|)]
  {
  }

  // ---- Writes ----

  /** A created post is appended to its author's profile list and is the
      only change to it. */
  lemma CreateShowsOnProfile(st: State, requester: Username, form: PostForm)
    ensures var st' := PostCreate(st, requester, form, true).state;
      AuthorPostList(st', requester) == AuthorPostList(st, requester) + [st'.posts[|st.posts|]]
  {
    var st' := PostCreate(st, requester, form, true).state;
    var post := st'.posts[|st.posts|];
    assert st'.posts == st.posts + [post];
    FilterAppend(st.posts, post, (p: Post) => p.author == requester);
  }

  /** A valid comment is appended to the post's comment list on its detail
      page, after the comments already there. */
  lemma CommentShowsOnDetail(st: State, requester: Username, postId: nat, text: string)
    requires HasPost(st.posts, postId)
    ensures var d := PostDetail(AddComment(st, requester, postId, text, true).state, postId);
      d.Ok? && d.value.comments == PostComments(st, postId) + [Comment(postId, requester, text)]
  {
    var st' := AddComment(st, requester, postId, text, true).state;
    var c := Comment(postId, requester, text);
    assert st'.comments == st.comments + [c];
    FilterAppend(st.comments, c, (x: Comment) => x.post == postId);
  }

  /** The group choice of a valid post form names an existing group. */
  predicate GroupChoiceExists(st: State, form: PostForm)
  {
    form.group.Some? ==> HasGroup(st.groups, form.group.value)
  }

  lemma CreateKeepsValid(st: State, requester: Username, form: PostForm, formValid: bool)
    requires Valid(st)
    requires requester in st.users
    requires formValid ==> GroupChoiceExists(st, form)
    ensures Valid(PostCreate(st, requester, form, formValid).state)
  {
  }

  lemma EditKeepsValid(st: State, requester: Username, postId: nat, form: PostForm, formValid: bool)
    requires Valid(st)
    requires formValid ==> GroupChoiceExists(st, form)
    ensures Valid(PostEdit(st, requester, postId, form, formValid).state)
  {
  }

  lemma CommentKeepsValid(st: State, requester: Username, postId: nat, text: string, formValid: bool)
    requires Valid(st)
    requires requester in st.users
    ensures Valid(AddComment(st, requester, postId, text, formValid).state)
  {
  }

  lemma FollowKeepsValid(st: State, requester: Username, username: Username)
    requires Valid(st)
    requires requester in st.users
    ensures Valid(ProfileFollow(st, requester, username).state)
  {
  }

  lemma UnfollowKeepsValid(st: State, requester: Username, username: Username)
    requires Valid(st)
    ensures Valid(ProfileUnfollow(st, requester, username).state)
  {
  }
}
