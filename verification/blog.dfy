/**
 * BlogHandler and PostHandler: posts are loaded from globbed YAML files into
 * a slug-keyed store and an ordered list, and a post page looks its slug up
 * in that store.
 */
module Blog {
  import opened Wrappers
  import opened GoStrings
  import Bytes
  import Http

  /** A post as the YAML file describes it, with the slug and HTML the loader fills in. */
  datatype Post = Post(title: string, created: string, excerpt: string, slug: string,
                       mdContent: string, htmlContent: string)

  /** The store shared by the handlers: slug to post. */
  type Store = map<string, Post>

  datatype LoadError = ReadFailed | ParseFailed | RenderFailed

  /**
   * What the loader asks of the outside world: the operating system's path
   * separator, os.ReadFile, yaml.Unmarshal into a fresh post, and goldmark's
   * markdown to HTML conversion. Each is None where it fails.
   */
  datatype Sources = Sources(sep: char,
                             read: string -> Option<seq<Bytes.byte>>,
                             yaml: seq<Bytes.byte> -> Option<Post>,
                             markdown: string -> Option<string>)

  const Extension := ".yaml"

  /** The slug of a post file: its base name, forward slashes first, without a trailing ".yaml". */
  function SlugOf(file: string, sep: char): (r: string)
    ensures r == [sep] || '/' !in r
    ensures (exists i :: 0 <= i < |file| && file[i] != sep && file[i] != '/') ==> '/' !in r && sep !in r
  {
    var b := Base(ToSlash(file, sep), sep);
    BaseOfNamedFile(file, sep);
    assert forall c :: c in TrimSuffix(b, Extension) ==> c in b by {
      assert TrimSuffix(b, Extension) == b[..|TrimSuffix(b, Extension)|];
    }
    TrimSuffix(b, Extension)
  }

  /** A file name holding some character other than a separator has a base name free of both separators. */
  lemma BaseOfNamedFile(file: string, sep: char)
    ensures (exists i :: 0 <= i < |file| && file[i] != sep && file[i] != '/')
            ==> '/' !in Base(ToSlash(file, sep), sep) && sep !in Base(ToSlash(file, sep), sep)
  {
    if exists i :: 0 <= i < |file| && file[i] != sep && file[i] != '/' {
      var i :| 0 <= i < |file| && file[i] != sep && file[i] != '/';
      BaseOfNonRoot(ToSlash(file, sep), sep, i);
    }
  }

  /** A name made of the separator alone has that separator as its slug, as filepath.Base gives it. */
  lemma SeparatorOnlySlug()
    ensures SlugOf("\\", '\\') == "\\"
    ensures SlugOf("/", '\\') == "\\"
  {
    assert StripTrailingSlashes("/"[..0]) == [];
  }

  /** Forward slashes for a glob result "posts<sep><tail>" whose tail holds no separator. */
  lemma ToSlashOfGlobResult(tail: string, sep: char)
    requires sep == '/' || sep == '\\'
    requires sep !in tail
    ensures ToSlash("posts" + [sep] + tail, sep) == "posts" + "/" + tail
  {
    if sep != '/' {
      ReplaceCharOfConcat("posts" + [sep], tail, sep, '/');
      ReplaceCharOfConcat("posts", [sep], sep, '/');
      ReplaceCharAbsent("posts", sep, '/');
      ReplaceCharAbsent(tail, sep, '/');
    }
  }

  /** For a glob result "posts<sep><name>.yaml" the slug is exactly <name>. */
  lemma SlugOfGlobResult(name: string, sep: char)
    requires sep == '/' || sep == '\\'
    requires '/' !in name && sep !in name
    ensures SlugOf("posts" + [sep] + name + Extension, sep) == name
  {
    var tail := name + Extension;
    assert "posts" + [sep] + name + Extension == "posts" + [sep] + tail;
    assert '/' !in tail && sep !in tail by {
      assert forall i :: 0 <= i < |tail| ==> tail[i] in name || tail[i] in Extension;
    }
    ToSlashOfGlobResult(tail, sep);
    BaseOfJoin("posts", tail, sep);
    TrimSuffixOfConcat(name, Extension);
  }

  /** One file through read, parse, slug assignment and markdown conversion. */
  function PreparePost(file: string, src: Sources): (r: Result<Post, LoadError>)
    ensures r.Ok? ==> r.value.slug == SlugOf(file, src.sep)
    ensures r.Ok? ==> src.markdown(r.value.mdContent) == Some(r.value.htmlContent)
    ensures r == Err(ReadFailed) <==> src.read(file).None?
    ensures r == Err(ParseFailed) <==> src.read(file).Some? && src.yaml(src.read(file).value).None?
    ensures r == Err(RenderFailed)
        <==> && src.read(file).Some? && src.yaml(src.read(file).value).Some?
             && src.markdown(src.yaml(src.read(file).value).value.mdContent).None?
    ensures r.Ok? ==> src.read(file).Some? && src.yaml(src.read(file).value).Some?
    ensures r.Ok? ==> var parsed := src.yaml(src.read(file).value).value;
                      && r.value.title == parsed.title && r.value.created == parsed.created
                      && r.value.excerpt == parsed.excerpt && r.value.mdContent == parsed.mdContent
  {
    match src.read(file)
    case None => Err(ReadFailed)
    case Some(bytes) =>
      match src.yaml(bytes)
      case None => Err(ParseFailed)
      case Some(parsed) =>
        match src.markdown(parsed.mdContent)
        case None => Err(RenderFailed)
        case Some(html) => Ok(parsed.(slug := SlugOf(file, src.sep), htmlContent := html))
  }

  /** Every entry of the store is filed under its own slug. */
  predicate SlugKeyed(store: Store) {
    forall k :: k in store ==> store[k].slug == k
  }

  /** The store after writing each post under its slug, in order. */
  function Install(store: Store, posts: seq<Post>): (r: Store)
    ensures r.Keys == store.Keys + set p | p in posts :: p.slug
    ensures forall k :: k in store && (forall p :: p in posts ==> p.slug != k) ==> r[k] == store[k]
    ensures SlugKeyed(store) ==> SlugKeyed(r)
    decreases |posts|
  {
    if posts == [] then store
    else
      var last := posts[|posts| - 1];
      assert posts == posts[..|posts| - 1] + [last];
      Install(store, posts[..|posts| - 1])[last.slug := last]
  }

  /** Installing one more post writes it over whatever was under its slug. */
  lemma InstallAppend(store: Store, posts: seq<Post>, post: Post)
    ensures Install(store, posts + [post]) == Install(store, posts)[post.slug := post]
  {
    assert (posts + [post])[..|posts|] == posts;
  }

  /** A later post with the same slug overwrites an earlier one: the entry is the last post carrying it. */
  lemma {:induction false} InstallLastWins(store: Store, posts: seq<Post>, i: nat)
    requires i < |posts|
    requires forall j :: i < j < |posts| ==> posts[j].slug != posts[i].slug
    ensures Install(store, posts)[posts[i].slug] == posts[i]
    decreases |posts|
  {
    if i < |posts| - 1 {
      InstallLastWins(store, posts[..|posts| - 1], i);
    }
  }

  /**
   * The posts of the longest run of files, from the first, that all load:
   * the run stops at the first file that fails.
   */
  function LoadedPrefix(files: seq<string>, src: Sources): (ps: seq<Post>)
    ensures |ps| <= |files|
    ensures forall i :: 0 <= i < |ps| ==> PreparePost(files[i], src) == Ok(ps[i])
    ensures |ps| < |files| ==> PreparePost(files[|ps|], src).Err?
    decreases |files|
  {
    if files == [] then []
    else match PreparePost(files[0], src)
      case Err(_) => []
      case Ok(p) => [p] + LoadedPrefix(files[1..], src)
  }

  /** The run from file `i` on: a failing file ends it, a loading one is its first post. */
  lemma LoadedPrefixUnfold(files: seq<string>, src: Sources, i: nat)
    requires i < |files|
    ensures PreparePost(files[i], src).Err? ==> LoadedPrefix(files[i..], src) == []
    ensures PreparePost(files[i], src).Ok?
        ==> LoadedPrefix(files[i..], src) == [PreparePost(files[i], src).value] + LoadedPrefix(files[i + 1..], src)
  {
    assert files[i..][0] == files[i] && files[i..][1..] == files[i + 1..];
  }

  /** One step of the loop: a loading file extends the posts so far, a failing one ends the run there. */
  lemma LoadedPrefixStep(files: seq<string>, src: Sources, i: nat, posts: seq<Post>)
    requires i < |files|
    requires LoadedPrefix(files, src) == posts + LoadedPrefix(files[i..], src)
    ensures PreparePost(files[i], src).Err? ==> LoadedPrefix(files, src) == posts
    ensures PreparePost(files[i], src).Ok?
        ==> LoadedPrefix(files, src) == (posts + [PreparePost(files[i], src).value]) + LoadedPrefix(files[i + 1..], src)
  {
    LoadedPrefixUnfold(files, src, i);
    var rest := LoadedPrefix(files[i..], src);
    if PreparePost(files[i], src).Err? {
      assert posts + rest == posts;
    } else {
      var p := PreparePost(files[i], src).value;
      var tail := LoadedPrefix(files[i + 1..], src);
      assert posts + ([p] + tail) == (posts + [p]) + tail;
    }
  }

  /**
   * The loop of BlogHandler over the globbed files, in glob order: each file
   * is read, parsed, given its slug and converted, then written to the store
   * and appended to the list. The first failure stops the loop, and the
   * store keeps what was written before it.
   */
  method LoadPosts(files: seq<string>, src: Sources, store: Store)
    returns (store': Store, posts: seq<Post>, failure: Option<LoadError>)
    ensures posts == LoadedPrefix(files, src)
    ensures store' == Install(store, posts)
    ensures failure.None? <==> |posts| == |files|
    ensures failure.Some? ==> PreparePost(files[|posts|], src) == Err(failure.value)
  {
    store' := store;
    posts := [];
    failure := None;
    var i := 0;
    while i < |files|
      invariant 0 <= i <= |files|
      invariant |posts| == i
      invariant LoadedPrefix(files, src) == posts + LoadedPrefix(files[i..], src)
      invariant store' == Install(store, posts)
    {
      LoadedPrefixStep(files, src, i, posts);
      var prepared := PreparePost(files[i], src);
      if prepared.Err? {
        failure := Some(prepared.error);
        return;
      }
      var post := prepared.value;
      store' := store'[post.slug := post];
      InstallAppend(store, posts, post);
      posts := posts + [post];
      i := i + 1;
    }
    assert files[i..] == [];
  }

  /** The data of the blog index page. */
  datatype BlogView = BlogView(title: string, posts: seq<Post>)

  /** How a failed file is answered. */
  function FailureReply(e: LoadError): (r: Http.Reply<BlogView>)
    ensures r.Fail? && r.code in {Http.StatusInternalServerError, Http.StatusNotFound}
    ensures r.code == Http.StatusNotFound <==> e == RenderFailed
    ensures e == ReadFailed ==> r == Http.Error("YAML directory reading error", Http.StatusInternalServerError)
    ensures e == ParseFailed ==> r == Http.Error("YAML parser error", Http.StatusInternalServerError)
    ensures e == RenderFailed ==> r == Http.NotFound()
    ensures r.text == "YAML directory reading error\n" <==> e == ReadFailed
  {
    match e
    case ReadFailed => Http.Error("YAML directory reading error", Http.StatusInternalServerError)
    case ParseFailed => Http.Error("YAML parser error", Http.StatusInternalServerError)
    case RenderFailed => Http.NotFound()
  }

  /**
   * BlogHandler. `glob` is the result of globbing the posts directory for YAML files (None when the
   * pattern is rejected); `store` the shared store before the request.
   */
  method BlogHandler(glob: Option<seq<string>>, src: Sources, store: Store)
    returns (store': Store, reply: Http.Reply<BlogView>)
    ensures glob.None? ==> store' == store && reply == Http.Error("posts directory reading error", Http.StatusInternalServerError)
    ensures glob.Some? ==> store' == Install(store, LoadedPrefix(glob.value, src))
    ensures reply.Render? <==> glob.Some? && |LoadedPrefix(glob.value, src)| == |glob.value|
    ensures reply.Render? ==> reply == Http.Render("blog", BlogView("Blog", LoadedPrefix(glob.value, src)))
    ensures glob.Some? && !reply.Render?
        ==> var n := |LoadedPrefix(glob.value, src)|;
            n < |glob.value| && reply == FailureReply(PreparePost(glob.value[n], src).error)
  {
    if glob.None? {
      store' := store;
      reply := Http.Error("posts directory reading error", Http.StatusInternalServerError);
      return;
    }
    var posts, failure;
    store', posts, failure := LoadPosts(glob.value, src, store);
    if failure.Some? {
      reply := FailureReply(failure.value);
      return;
    }
    reply := Http.Render("blog", BlogView("Blog", posts));
  }

  /** When every file loads, the list has one post per file, in glob order, each under its file's slug. */
  lemma LoadedAllInOrder(files: seq<string>, src: Sources)
    requires forall i :: 0 <= i < |files| ==> PreparePost(files[i], src).Ok?
    ensures |LoadedPrefix(files, src)| == |files|
    ensures forall i :: 0 <= i < |files| ==> LoadedPrefix(files, src)[i].slug == SlugOf(files[i], src.sep)
  {
  }

  /**
   * PostHandler: the slug is the request path without "/posts/", and the
   * page is rendered with whatever the store holds under it — nothing at
   * all for an unknown slug, which is not answered with 404.
   */
  function PostPage(store: Store, path: string): (r: Http.Reply<Option<Post>>)
    ensures r.Render? && r.template == "post"
    ensures r.data.Some? <==> TrimPrefix(path, "/posts/") in store
    ensures r.data.Some? ==> r.data.value == store[TrimPrefix(path, "/posts/")]
    ensures r.data.Some? && SlugKeyed(store) ==> r.data.value.slug == TrimPrefix(path, "/posts/")
  {
    var slug := TrimPrefix(path, "/posts/");
    Http.Render("post", if slug in store then Some(store[slug]) else None)
  }

  /**
   * The post route never answers 404: an unknown slug renders the template
   * with no post, and the page is answered 200 or 500 like any other.
   */
  lemma UnknownSlugIsNotNotFound(store: Store, path: string, run: Http.TemplateRun)
    ensures var r := PostPage(store, path);
            var code := Http.StatusOf(r, run);
            && code != Http.StatusNotFound
            && (code == Http.StatusOK || code == Http.StatusInternalServerError)
            && (TrimPrefix(path, "/posts/") !in store ==> r.data.None?)
  {
  }

  /**
   * After a blog index load, every listed post's page finds a post with its
   * slug: the post itself, or a later file's post that shares the slug.
   */
  lemma ListedPostsResolve(store: Store, files: seq<string>, src: Sources)
    requires SlugKeyed(store)
    ensures var posts := LoadedPrefix(files, src);
            forall i :: 0 <= i < |posts| ==>
              var r := PostPage(Install(store, posts), "/posts/" + posts[i].slug);
              && r.data == Some(Install(store, posts)[posts[i].slug])
              && r.data.value.slug == posts[i].slug
  {
    var posts := LoadedPrefix(files, src);
    forall i | 0 <= i < |posts|
      ensures var r := PostPage(Install(store, posts), "/posts/" + posts[i].slug);
              && r.data == Some(Install(store, posts)[posts[i].slug])
              && r.data.value.slug == posts[i].slug
    {
      TrimPrefixOfConcat("/posts/", posts[i].slug);
      assert posts[i] in posts;
    }
  }
}
