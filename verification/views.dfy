/** The request handlers of the posts app, each a pure query or a pure
    transition over the store. A handler that needs a logged-in user takes
    that user's name as `requester`; a handler that writes returns the new
    store together with the response it sends. */
module Views {
  import opened Common
  import opened Pagination
  import opened Models

  /** Who is asking: the profile page is open to anonymous visitors. */
  datatype Visitor = Anonymous | Authenticated(name: Username)

  /** The named routes the write handlers redirect to. */
  datatype Route = ProfileRoute(username: Username) | PostDetailRoute(postId: nat) | FollowIndexRoute

  /** What a write handler sends back: a redirect, the post form rendered
      again (`editing` holds the post id on the edit page), or not found. */
  datatype Response = Redirect(to: Route) | RenderPostForm(editing: Option<nat>) | PageNotFound

  datatype Transition = Transition(state: State, response: Response)

  /** The cleaned fields of a post form: `text`, `group`, `image`. */
  datatype PostForm = PostForm(text: string, group: Option<Slug>, image: Option<string>)

  datatype GroupContext = GroupContext(group: Group, pageObj: Page<Post>)

  datatype ProfileContext = ProfileContext(author: Username, pageObj: Page<Post>, following: bool)

  datatype DetailContext = DetailContext(post: Post, comments: seq<Comment>)

  /** `index`: a page of every post. */
  function Index(st: State, page: PageRequest): (r: Page<Post>)
    ensures r.numPages == NumPages(|st.posts|)
    ensures 1 <= r.number <= r.numPages
    ensures forall p :: p in r.objectList ==> p in st.posts
    ensures |r.objectList| <= ElementQuantity
    ensures r.objectList == PageAt(st.posts, r.number)
    ensures r == GetPage(st.posts, page)
  {
    GetPage(st.posts, page)
  }

  /** `group_posts`: the group with the slug and a page of its posts, or not
      found when no group has that slug. */
  function GroupPosts(st: State, slug: Slug, page: PageRequest): (r: Result<GroupContext>)
    ensures r.NotFound? <==> !HasGroup(st.groups, slug)
    ensures r.Ok? ==> r.value.group in st.groups && r.value.group.slug == slug
    ensures r.Ok? ==> forall p :: p in r.value.pageObj.objectList ==> p in st.posts && p.group == Some(slug)
    ensures r.Ok? ==> r.value.pageObj == GetPage(GroupPostList(st, slug), page)
  {
    match FindGroup(st.groups, slug)
    case None => NotFound
    case Some(group) => Ok(GroupContext(group, GetPage(GroupPostList(st, slug), page)))
  }

  /** `profile`: a page of the author's posts and whether the visitor follows
      them, or not found when no user has that username. */
  function Profile(st: State, visitor: Visitor, username: Username, page: PageRequest): (r: Result<ProfileContext>)
    ensures r.NotFound? <==> username !in st.users
    ensures r.Ok? ==> r.value.author == username
    ensures r.Ok? ==> (r.value.following <==> visitor.Authenticated? && Follow(visitor.name, username) in st.follows)
    ensures r.Ok? ==> forall p :: p in r.value.pageObj.objectList ==> p in st.posts && p.author == username
    ensures r.Ok? ==> r.value.pageObj == GetPage(AuthorPostList(st, username), page)
  {
    if username !in st.users then NotFound
    else
      var following := match visitor
        case Anonymous => false
        case Authenticated(name) => Follow(name, username) in st.follows;
      Ok(ProfileContext(username, GetPage(AuthorPostList(st, username), page), following))
  }

  /** `post_detail`: the post and its comments, or not found. */
  function PostDetail(st: State, postId: nat): (r: Result<DetailContext>)
    ensures r.NotFound? <==> !HasPost(st.posts, postId)
    ensures r.Ok? ==> r.value.post in st.posts && r.value.post.id == postId
    ensures r.Ok? ==> forall c :: c in r.value.comments <==> c in st.comments && c.post == postId
    ensures r.Ok? ==> r.value.comments == PostComments(st, postId)
  {
    match PostById(st.posts, postId)
    case None => NotFound
    case Some(post) => Ok(DetailContext(post, PostComments(st, postId)))
  }

  /** `post_create`: a valid form adds one post by the requester and
      redirects to their profile; otherwise the form is shown again and
      nothing is stored. */
  function PostCreate(st: State, requester: Username, form: PostForm, formValid: bool): (r: Transition)
    ensures r.state.(posts := st.posts) == st
    ensures !formValid ==> r == Transition(st, RenderPostForm(None))
    ensures formValid ==> r.response == Redirect(ProfileRoute(requester))
    ensures formValid ==> |r.state.posts| == |st.posts| + 1 && r.state.posts[..|st.posts|] == st.posts
    ensures formValid ==>
      var p := r.state.posts[|st.posts|];
      && p.author == requester
      && p.text == form.text && p.group == form.group && p.image == form.image
      && !HasPost(st.posts, p.id)
  {
    if formValid then
      var post := Post(NextPostId(st.posts), requester, form.text, form.group, form.image);
      Transition(st.(posts := st.posts + [post]), Redirect(ProfileRoute(requester)))
    else
      Transition(st, RenderPostForm(None))
  }

  /** `post_edit`: only the author may edit; a valid form replaces the post's
      text, group and image in place. A non-author is sent to the post page,
      an invalid form is shown again, and neither changes anything. */
  function PostEdit(st: State, requester: Username, postId: nat, form: PostForm, formValid: bool): (r: Transition)
    ensures r.state.(posts := st.posts) == st
    ensures r.response.PageNotFound? <==> !HasPost(st.posts, postId)
    ensures !HasPost(st.posts, postId) ==> r.state == st
    ensures |r.state.posts| == |st.posts|
    ensures forall i :: 0 <= i < |st.posts| ==>
      r.state.posts[i].id == st.posts[i].id && r.state.posts[i].author == st.posts[i].author
    ensures forall i :: 0 <= i < |st.posts| && st.posts[i].id != postId ==> r.state.posts[i] == st.posts[i]
    ensures r.state != st ==> formValid && r.response == Redirect(PostDetailRoute(postId))
    ensures PostById(st.posts, postId).Some? ==>
      var post := PostById(st.posts, postId).value;
      && (post.author != requester ==> r == Transition(st, Redirect(PostDetailRoute(postId))))
      && (post.author == requester && !formValid ==> r == Transition(st, RenderPostForm(Some(postId))))
      && (post.author == requester && formValid ==>
            && r.response == Redirect(PostDetailRoute(postId))
            && PostById(r.state.posts, postId) == Some(post.(text := form.text, group := form.group, image := form.image)))
  {
    match PostIndex(st.posts, postId)
    case None => Transition(st, PageNotFound)
    case Some(i) =>
      var post := st.posts[i];
      if requester != post.author then
        Transition(st, Redirect(PostDetailRoute(postId)))
      else if !formValid then
        Transition(st, RenderPostForm(Some(postId)))
      else
        var edited := post.(text := form.text, group := form.group, image := form.image);
        PostIndexAfterReplace(st.posts, i, edited);
        Transition(st.(posts := st.posts[i := edited]), Redirect(PostDetailRoute(postId)))
  }

  /** `add_comment`: a valid form attaches one comment by the requester to
      the post; the response is the post page whatever the form held. */
  function AddComment(st: State, requester: Username, postId: nat, text: string, formValid: bool): (r: Transition)
    ensures r.state.(comments := st.comments) == st
    ensures !HasPost(st.posts, postId) ==> r == Transition(st, PageNotFound)
    ensures HasPost(st.posts, postId) ==> r.response == Redirect(PostDetailRoute(postId))
    ensures !formValid ==> r.state == st
    ensures HasPost(st.posts, postId) && formValid ==>
      && |r.state.comments| == |st.comments| + 1
      && r.state.comments[..|st.comments|] == st.comments
      && r.state.comments[|st.comments|] == Comment(postId, requester, text)
  {
    match PostById(st.posts, postId)
    case None => Transition(st, PageNotFound)
    case Some(post) =>
      if formValid then
        var comment := Comment(post.id, requester, text);
        Transition(st.(comments := st.comments + [comment]), Redirect(PostDetailRoute(postId)))
      else
        Transition(st, Redirect(PostDetailRoute(postId)))
  }

  /** `follow_index`: a page of the posts by authors the requester follows. */
  function FollowIndex(st: State, requester: Username, page: PageRequest): (r: Page<Post>)
    ensures forall p :: p in r.objectList ==> p in st.posts && Follow(requester, p.author) in st.follows
    ensures (forall f :: f in st.follows ==> f.user != requester) ==> r.objectList == []
    ensures r == GetPage(FollowedPostList(st, requester), page)
  {
    GetPage(FollowedPostList(st, requester), page)
  }

  /** `profile_follow`: makes sure the requester follows the named user,
      unless that user is the requester; not found when no user has the
      name. Only the edge (requester, username) can appear. */
  function ProfileFollow(st: State, requester: Username, username: Username): (r: Transition)
    ensures username !in st.users ==> r == Transition(st, PageNotFound)
    ensures username in st.users ==> r.response == Redirect(FollowIndexRoute)
    ensures r.state.(follows := st.follows) == st
    ensures requester == username ==> r.state == st
    ensures Follow(requester, username) in st.follows ==> r.state == st
    ensures requester != username && username in st.users ==> Follow(requester, username) in r.state.follows
    ensures forall f :: f != Follow(requester, username) ==> (f in r.state.follows <==> f in st.follows)
  {
    if username !in st.users then Transition(st, PageNotFound)
    else if requester != username then
      Transition(st.(follows := st.follows + {Follow(requester, username)}), Redirect(FollowIndexRoute))
    else
      Transition(st, Redirect(FollowIndexRoute))
  }

  /** `profile_unfollow`: removes the requester's edge to the named user if
      there is one; always redirects, even for an unknown name. */
  function ProfileUnfollow(st: State, requester: Username, username: Username): (r: Transition)
    ensures r.response == Redirect(FollowIndexRoute)
    ensures r.state.(follows := st.follows) == st
    ensures Follow(requester, username) !in r.state.follows
    ensures forall f :: f != Follow(requester, username) ==> (f in r.state.follows <==> f in st.follows)
    ensures Follow(requester, username) !in st.follows ==> r.state == st
  {
    Transition(st.(follows := st.follows - {Follow(requester, username)}), Redirect(FollowIndexRoute))
  }
}
