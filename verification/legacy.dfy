/**
 * The older single-file server: blog cards derived from markdown file
 * names, a post page that rebuilds the file path from the URL, a contact
 * route without validation, and an SMTP mailer.
 */
module Legacy {
  import opened Wrappers
  import opened GoStrings
  import Http
  import Contact

  const Excerpt := "Lorem ipsum dolor sit amet, consectetur adipiscing elit. Sed non risus. Suspendisse lectus tortor, dignissim sit amet, adipiscing nec, ultricies sed, dolor."
  const Extension := ".md"
  const GlobPrefix := "posts\\"
  const RoutePrefix := "/posts/"
  const LinkPrefix := "posts/"

  /** A card on the blog index. */
  datatype PostCard = PostCard(title: string, excerpt: string, slug: string)

  /** The post page data; the date is the file's formatted creation time. */
  datatype PostView = PostView(title: string, date: string, content: string)

  datatype BlogView = BlogView(title: string, posts: seq<PostCard>)

  /** A title from a slug: hyphens become spaces, then letters are upper-cased. */
  function Title(slug: string): (t: string)
    ensures |t| == |slug|
    ensures '-' !in t
    ensures forall i :: 0 <= i < |slug| ==> t[i] == (if slug[i] == '-' then ' ' else UpperChar(slug[i]))
  {
    ToUpperAscii(ReplaceChar(slug, '-', ' '))
  }

  /** The card slug: the glob result without ".md", then without a leading "posts\". */
  function CardSlug(file: string): (r: string)
    ensures HasPrefix(file, GlobPrefix) && HasSuffix(file, Extension) && |GlobPrefix| + |Extension| <= |file|
            ==> GlobPrefix + r + Extension == file
    ensures !HasPrefix(file, GlobPrefix) && !HasSuffix(file, Extension) ==> r == file
  {
    var t := TrimSuffix(file, Extension);
    assert HasSuffix(file, Extension) && |GlobPrefix| + |Extension| <= |file|
           ==> t == file[..|file| - |Extension|] && t[..|GlobPrefix|] == file[..|GlobPrefix|];
    TrimPrefix(t, GlobPrefix)
  }

  function Card(file: string): (c: PostCard)
    ensures c.excerpt == Excerpt
    ensures c.title == Title(CardSlug(file))
    ensures HasPrefix(c.slug, LinkPrefix) && TrimPrefix(c.slug, LinkPrefix) == CardSlug(file)
  {
    var slug := CardSlug(file);
    TrimPrefixOfConcat(LinkPrefix, slug);
    PostCard(Title(slug), Excerpt, LinkPrefix + slug)
  }

  /** One card per globbed file, in glob order. */
  function Cards(files: seq<string>): (cs: seq<PostCard>)
    ensures |cs| == |files|
    ensures forall i :: 0 <= i < |files| ==> cs[i] == Card(files[i])
    decreases |files|
  {
    if files == [] then [] else [Card(files[0])] + Cards(files[1..])
  }

  /** The /blog route; `glob` is the result of globbing the posts directory for markdown files. */
  function BlogPage(glob: Option<seq<string>>): (r: Http.Reply<BlogView>)
    ensures glob.None? ==> r.Fail? && r.code == Http.StatusInternalServerError
    ensures glob.None? ==> r == Http.Error("Erro ao ler diret\U{F3}rio de posts", Http.StatusInternalServerError)
    ensures glob.Some? ==> r.Render? && r.template == "blog" && r.data.title == "Blog"
                           && |r.data.posts| == |glob.value|
                           && forall i :: 0 <= i < |glob.value| ==> r.data.posts[i] == Card(glob.value[i])
  {
    match glob
    case None => Http.Error("Erro ao ler diret\U{F3}rio de posts", Http.StatusInternalServerError)
    case Some(files) => Http.Render("blog", BlogView("Blog", Cards(files)))
  }

  /** The file the post route reads: "posts/" + the path without "/posts/" + ".md". */
  function PostFilePath(path: string): (f: string)
    ensures HasPrefix(f, LinkPrefix) && HasSuffix(f, Extension)
    ensures TrimPrefix(TrimSuffix(f, Extension), LinkPrefix) == TrimPrefix(path, RoutePrefix)
  {
    var slug := TrimPrefix(path, RoutePrefix);
    var f := LinkPrefix + slug + Extension;
    TrimSuffixOfConcat(LinkPrefix + slug, Extension);
    TrimPrefixOfConcat(LinkPrefix, slug);
    f
  }

  /**
   * The /posts/ route. `convert` reads and converts the markdown file (None
   * when either fails); `created` is the formatted creation time of the
   * file (None when it cannot be stat'ed). Both are outside the model.
   */
  function PostPage(path: string, convert: string -> Option<string>, created: string -> Option<string>)
    : (r: Http.Reply<PostView>)
    ensures r.Render? <==> convert(PostFilePath(path)).Some? && created(PostFilePath(path)).Some?
    ensures !r.Render? ==> r == Http.NotFound()
    ensures r.Render? ==> r.data.title == Title(TrimPrefix(path, RoutePrefix))
                          && r.data.content == convert(PostFilePath(path)).value
    ensures r.Render? ==> r.template == "post" && r.data.date == created(PostFilePath(path)).value
  {
    var slug := TrimPrefix(path, RoutePrefix);
    var file := LinkPrefix + slug + Extension;
    match convert(file)
    case None => Http.NotFound()
    case Some(content) =>
      match created(file)
      case None => Http.NotFound()
      case Some(date) => Http.Render("post", PostView(Title(slug), date, content))
  }

  /**
   * Following a card's link for a backslash-separated glob result reaches the
   * same file, written with a forward slash: the link, resolved against the
   * site root, is "/posts/<name>", and that route reads "posts/<name>.md".
   */
  lemma CardLinkRebuildsFile(name: string)
    ensures CardSlug(GlobPrefix + name + Extension) == name
    ensures PostFilePath("/" + Card(GlobPrefix + name + Extension).slug) == LinkPrefix + name + Extension
  {
    TrimSuffixOfConcat(GlobPrefix + name, Extension);
    TrimPrefixOfConcat(GlobPrefix, name);
    assert "/" + (LinkPrefix + name) == RoutePrefix + name;
    TrimPrefixOfConcat(RoutePrefix, name);
  }

  /** A forward-slash glob result keeps its "posts/" in the slug, so its link names a file one directory deeper. */
  lemma SlashGlobKeepsPrefix(name: string)
    ensures CardSlug(LinkPrefix + name + Extension) == LinkPrefix + name
    ensures PostFilePath("/" + Card(LinkPrefix + name + Extension).slug) == LinkPrefix + LinkPrefix + name + Extension
  {
    TrimSuffixOfConcat(LinkPrefix + name, Extension);
    assert (LinkPrefix + name)[5] == '/';
    assert !HasPrefix(LinkPrefix + name, GlobPrefix);
    assert "/" + (LinkPrefix + (LinkPrefix + name)) == RoutePrefix + (LinkPrefix + name);
    TrimPrefixOfConcat(RoutePrefix, LinkPrefix + name);
  }

  /** The title on a card and on the page its link opens are the same. */
  lemma CardAndPageTitlesAgree(name: string, convert: string -> Option<string>, created: string -> Option<string>)
    ensures var r := PostPage(RoutePrefix + name, convert, created);
            r.Render? ==> r.data.title == Card(GlobPrefix + name + Extension).title
  {
    CardLinkRebuildsFile(name);
    TrimPrefixOfConcat(RoutePrefix, name);
  }

  /** The message the SMTP mailer builds. */
  datatype MailMessage = MailMessage(from: string, to: string, subject: string, contentType: string, body: string)

  /** The SMTP server and credentials the message is sent through. */
  datatype Dialer = Dialer(host: string, port: int, user: string, password: string)

  /** How the legacy send ended: sent, failed, or the whole process exited on a missing .env file. */
  datatype Delivery = Delivered | DeliveryFailed | ProcessExit

  datatype Sending = Sending(delivery: Delivery, sent: Option<(Dialer, MailMessage)>)

  const OperatorAddress := "aramalho.1991@gmail.com"
  const LegacySubject := "Vi seu site e gostaria de entrar em contato"

  /** The message: from the submitter, to the fixed operator address, the message text as the whole body. */
  function LegacyMessage(email: string, message: string): (m: MailMessage)
    ensures m.from == email && m.to == OperatorAddress && m.subject == LegacySubject
    ensures m.contentType == "text/plain" && m.body == message
  {
    MailMessage(email, OperatorAddress, LegacySubject, "text/plain", message)
  }

  /**
   * sendEmail over SMTP. `envLoaded` is whether the .env file loaded (the
   * process exits otherwise), `user` and `password` are EMAIL_USER and
   * EMAIL_PASSWORD, and `dial` whether dialing and sending succeeds.
   */
  function LegacySendEmail(envLoaded: bool, user: string, password: string,
                           name: string, email: string, message: string,
                           dial: (Dialer, MailMessage) -> bool): (s: Sending)
    ensures !envLoaded ==> s == Sending(ProcessExit, None)
    ensures envLoaded ==> s.sent == Some((Dialer("smtp.gmail.com", 587, user, password), LegacyMessage(email, message)))
    ensures s.delivery == Delivered <==> envLoaded && dial(s.sent.value.0, s.sent.value.1)
    ensures s.delivery == ProcessExit <==> !envLoaded
    ensures s.delivery == DeliveryFailed <==> envLoaded && !dial(s.sent.value.0, s.sent.value.1)
  {
    if !envLoaded then Sending(ProcessExit, None)
    else
      var dialer := Dialer("smtp.gmail.com", 587, user, password);
      var msg := LegacyMessage(email, message);
      Sending(if dial(dialer, msg) then Delivered else DeliveryFailed, Some((dialer, msg)))
  }

  /** The submitter's name never reaches the legacy message. */
  lemma LegacySendIgnoresName(envLoaded: bool, user: string, password: string, name: string, name': string,
                              email: string, message: string, dial: (Dialer, MailMessage) -> bool)
    ensures LegacySendEmail(envLoaded, user, password, name, email, message, dial)
         == LegacySendEmail(envLoaded, user, password, name', email, message, dial)
  {
  }

  /** The reply, the form handed to the mailer if it was called, and whether the process exited. */
  datatype Outcome = Outcome(reply: Http.Reply<Contact.View>, mailed: Option<Contact.Form>, exited: bool)

  /** The legacy /contact route: no field check, no CSRF token and no success flag in its data. */
  function HandleLegacyContact(req: Contact.Request, mailer: Contact.Form -> Delivery): (r: Outcome)
    ensures r.mailed.Some? <==> req.verb == Http.MethodPost
    ensures r.mailed.Some? ==> r.mailed.value == req.form
    ensures r.exited <==> req.verb == Http.MethodPost && mailer(req.form) == ProcessExit
    ensures r.reply.Render? ==> r.reply.template == Contact.Template && r.reply.data.title == Contact.Title
                                && !r.reply.data.success && r.reply.data.csrfToken.None?
    ensures req.verb == Http.MethodPost && mailer(req.form) == DeliveryFailed
        ==> r.reply.Render? && r.reply.data.error == Some(Contact.SendFailedError) && r.reply.data.echoed == Some(req.form)
    ensures r.reply.Redirect? <==> req.verb == Http.MethodPost && mailer(req.form) == Delivered
    ensures r.reply.Redirect? ==> r.reply == Http.Redirect(Contact.SuccessLocation, Http.StatusSeeOther)
    ensures req.verb == Http.MethodGet ==> r.reply.Render? && r.reply.data.error.None? && r.reply.data.echoed.None?
    ensures r.exited ==> r.reply == Http.Silent
    ensures req.verb != Http.MethodGet && req.verb != Http.MethodPost ==> r == Outcome(Http.Silent, None, false)
  {
    var view := Contact.View(Contact.Title, false, None, None, None);
    if req.verb == Http.MethodGet then
      Outcome(Http.Render(Contact.Template, view), None, false)
    else if req.verb == Http.MethodPost then
      match mailer(req.form)
      case ProcessExit => Outcome(Http.Silent, Some(req.form), true)
      case DeliveryFailed =>
        Outcome(Http.Render(Contact.Template, view.(error := Some(Contact.SendFailedError), echoed := Some(req.form))),
                Some(req.form), false)
      case Delivered => Outcome(Http.Redirect(Contact.SuccessLocation, Http.StatusSeeOther), Some(req.form), false)
    else
      Outcome(Http.Silent, None, false)
  }

  /**
   * The status under the legacy renderTemplate, which answers 500 only when
   * the templates fail to load and ignores execution errors, so a page is
   * otherwise answered 200.
   */
  function LegacyStatusOf<V>(r: Http.Reply<V>, run: Http.TemplateRun): (code: int)
    ensures r.Render? ==> (code == Http.StatusInternalServerError <==> run == Http.LoadFailed)
    ensures r.Render? ==> (code == Http.StatusOK <==> run != Http.LoadFailed)
    ensures !r.Render? ==> code == Http.StatusOf(r, run)
  {
    if r.Render? then (if run == Http.LoadFailed then Http.StatusInternalServerError else Http.StatusOK)
    else Http.StatusOf(r, run)
  }

  /**
   * The legacy contact route, unless the process exits (log.Fatal on a
   * missing .env file, after which no answer is sent), answers 200, 303 or
   * 500: 303 exactly after a delivered message, 500 only for a page whose
   * templates fail to load.
   */
  lemma LegacyContactStatuses(req: Contact.Request, mailer: Contact.Form -> Delivery, run: Http.TemplateRun)
    ensures var r := HandleLegacyContact(req, mailer);
            var code := LegacyStatusOf(r.reply, run);
            && (r.exited <==> req.verb == Http.MethodPost && mailer(req.form) == ProcessExit)
            && (!r.exited ==> code == Http.StatusOK || code == Http.StatusSeeOther || code == Http.StatusInternalServerError)
            && (!r.exited ==> (code == Http.StatusSeeOther <==> req.verb == Http.MethodPost && mailer(req.form) == Delivered))
            && (!r.exited ==>
                  (code == Http.StatusInternalServerError
                   <==> run == Http.LoadFailed
                        && (req.verb == Http.MethodGet || (req.verb == Http.MethodPost && mailer(req.form) == DeliveryFailed))))
  {
  }

  /** The mailer the legacy route uses. */
  function SmtpMailer(envLoaded: bool, user: string, password: string, dial: (Dialer, MailMessage) -> bool)
    : Contact.Form -> Delivery
  {
    (f: Contact.Form) => LegacySendEmail(envLoaded, user, password, f.name, f.email, f.message, dial).delivery
  }

  /** The legacy route hands a form with empty fields to the mailer, where the current handler refuses it. */
  lemma LegacyMailsUnfilledForms(req: Contact.Request, mailer: Contact.Form -> Delivery, current: Contact.Mailer)
    requires req.verb == Http.MethodPost && !Contact.Filled(req.form)
    ensures HandleLegacyContact(req, mailer).mailed == Some(req.form)
    ensures Contact.HandleContact(req, current).mailed.None?
  {
  }

  /**
   * On a filled form, with mailers that agree on success, both versions give
   * the same kind of reply, the same error and the same echoed values.
   */
  lemma VersionsAgreeOnFilledForms(req: Contact.Request, legacy: Contact.Form -> Delivery, current: Contact.Mailer)
    requires req.verb == Http.MethodPost && Contact.Filled(req.form)
    requires legacy(req.form) != ProcessExit
    requires legacy(req.form) == Delivered <==> current(req.form)
    ensures var a, b := HandleLegacyContact(req, legacy), Contact.HandleContact(req, current);
            && a.mailed == b.mailed
            && (a.reply.Redirect? <==> b.reply.Redirect?)
            && (a.reply.Redirect? ==> a.reply == b.reply)
            && (a.reply.Render? <==> b.reply.Render?)
            && (a.reply.Render? ==> a.reply.data.error == b.reply.data.error && a.reply.data.echoed == b.reply.data.echoed)
  {
  }
}
