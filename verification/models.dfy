/** The social graph the views read and write: users, groups, posts,
    comments and follow edges, held as plain values, with the lookups and
    the filtered post lists the views are built from. */
module Models {
  import opened Common

  /** Usernames are unique, so a user is identified by their username. */
  type Username = string

  /** Group slugs are unique, so a group is referred to by its slug. */
  type Slug = string

  datatype Group = Group(slug: Slug, title: string, description: string)

  datatype Post = Post(id: nat, author: Username, text: string, group: Option<Slug>, image: Option<string>)

  /** A comment on the post with id `post`. */
  datatype Comment = Comment(post: nat, author: Username, text: string)

  /** The edge "`user` follows `author`". */
  datatype Follow = Follow(user: Username, author: Username)

  /** The whole store. `posts` holds posts in insertion order. */
  datatype State = State(
    users: set<Username>,
    groups: seq<Group>,
    posts: seq<Post>,
    comments: seq<Comment>,
    follows: set<Follow>)

  /** Length of a post's string form. */
  const PostStrLength: nat := 15

  /** A post's string form: its text cut to the first `PostStrLength` characters. */
  function PostStr(p: Post): (r: string)
    ensures |r| <= PostStrLength
    ensures r <= p.text
    ensures |p.text| <= PostStrLength ==> r == p.text
    ensures |p.text| >= PostStrLength ==> |r| == PostStrLength
  {
    if |p.text| <= PostStrLength then p.text else p.text[..PostStrLength]
  }

  /** A group's string form: its title. */
  function GroupStr(g: Group): string
  {
    g.title
  }

  predicate HasPost(posts: seq<Post>, id: nat)
  {
    exists p :: p in posts && p.id == id
  }

  predicate HasGroup(groups: seq<Group>, slug: Slug)
  {
    exists g :: g in groups && g.slug == slug
  }

  /** `Group.objects.get(slug=slug)`: the group with that slug, if any. */
  function FindGroup(groups: seq<Group>, slug: Slug): (r: Option<Group>)
    ensures r.Some? ==> r.value in groups && r.value.slug == slug
    ensures r.None? <==> !HasGroup(groups, slug)
  {
    if |groups| == 0 then None
    else if groups[0].slug == slug then Some(groups[0])
    else
      assert forall g :: g in groups[1..] ==> g in groups;
      assert forall g :: g in groups && g != groups[0] ==> g in groups[1..];
      FindGroup(groups[1..], slug)
  }

  /** Position of the first post with id `id`. */
  function PostIndex(posts: seq<Post>, id: nat): (r: Option<nat>)
    ensures r.Some? ==> r.value < |posts| && posts[r.value].id == id
    ensures r.Some? ==> forall j :: 0 <= j < r.value ==> posts[j].id != id
    ensures r.None? <==> !HasPost(posts, id)
  {
    if |posts| == 0 then None
    else if posts[0].id == id then Some(0)
    else
      match PostIndex(posts[1..], id)
      case None =>
        assert forall p :: p in posts && p != posts[0] ==> p in posts[1..];
        None
      case Some(i) => Some(i + 1)
  }

  /** `Post.objects.get(id=id)`: the post with that id, if any. */
  function PostById(posts: seq<Post>, id: nat): (r: Option<Post>)
    ensures r.Some? ==> r.value in posts && r.value.id == id
    ensures r.None? <==> !HasPost(posts, id)
  {
    match PostIndex(posts, id)
    case None => None
    case Some(i) => Some(posts[i])
  }

  /** The id the store hands to the next new post: larger than every id in use. */
  function NextPostId(posts: seq<Post>): (r: nat)
    ensures forall p :: p in posts ==> p.id < r
    ensures !HasPost(posts, r)
  {
    if |posts| == 0 then 1
    else
      var rest := NextPostId(posts[1..]);
      assert forall p :: p in posts ==> p == posts[0] || p in posts[1..];
      if posts[0].id < rest then rest else posts[0].id + 1
  }

  predicate UniquePostIds(posts: seq<Post>)
  {
    forall i, j :: 0 <= i < j < |posts| ==> posts[i].id != posts[j].id
  }

  predicate UniqueSlugs(groups: seq<Group>)
  {
    forall i, j :: 0 <= i < j < |groups| ==> groups[i].slug != groups[j].slug
  }

  /** The store's integrity constraints: primary keys and unique slugs,
      and every reference (author, group, followed and following user,
      commented post) resolving. */
  predicate Valid(st: State)
  {
    && UniquePostIds(st.posts)
    && UniqueSlugs(st.groups)
    && (forall p :: p in st.posts ==> p.author in st.users)
    && (forall p :: p in st.posts && p.group.Some? ==> HasGroup(st.groups, p.group.value))
    && (forall c :: c in st.comments ==> c.author in st.users && HasPost(st.posts, c.post))
    && (forall f :: f in st.follows ==> f.user in st.users && f.author in st.users)
  }

  /** `group.posts.all()`. */
  function GroupPostList(st: State, slug: Slug): (r: seq<Post>)
    ensures forall p :: p in r <==> p in st.posts && p.group == Some(slug)
  {
    Filter(st.posts, (p: Post) => p.group == Some(slug))
  }

  /** `author.posts.all()`. */
  function AuthorPostList(st: State, author: Username): (r: seq<Post>)
    ensures forall p :: p in r <==> p in st.posts && p.author == author
  {
    Filter(st.posts, (p: Post) => p.author == author)
  }

  /** `Post.objects.filter(author__following__user=user)`: posts whose
      author `user` follows. */
  function FollowedPostList(st: State, user: Username): (r: seq<Post>)
    ensures forall p :: p in r <==> p in st.posts && Follow(user, p.author) in st.follows
  {
    Filter(st.posts, (p: Post) => Follow(user, p.author) in st.follows)
  }

  /** `post.comments.all()`. */
  function PostComments(st: State, id: nat): (r: seq<Comment>)
    ensures forall c :: c in r <==> c in st.comments && c.post == id
    ensures forall c :: multiset(r)[c] == if c.post == id then multiset(st.comments)[c] else 0
  {
    Filter(st.comments, (c: Comment) => c.post == id)
  }

  /** With unique slugs, the lookup finds the one group that has the slug. */
  lemma FindGroupUnique(groups: seq<Group>, g: Group)
    requires UniqueSlugs(groups)
    requires g in groups
    ensures FindGroup(groups, g.slug) == Some(g)
  {
  }

  /** With unique ids, the lookup finds the one post that has the id. */
  lemma PostByIdUnique(posts: seq<Post>, i: nat)
    requires UniquePostIds(posts)
    requires i < |posts|
    ensures PostIndex(posts, posts[i].id) == Some(i)
    ensures PostById(posts, posts[i].id) == Some(posts[i])
  {
  }

  /** Replacing a post by one with the same id leaves the lookup of that id
      pointing at the same position. */
  lemma PostIndexAfterReplace(posts: seq<Post>, i: nat, q: Post)
    requires PostIndex(posts, q.id) == Some(i)
    ensures PostIndex(posts[i := q], q.id) == Some(i)
  {
    var posts' := posts[i := q];
    assert posts'[i] in posts';
    var r := PostIndex(posts', q.id);
    assert forall j :: 0 <= j < i ==> posts'[j].id != q.id;
  }
}
