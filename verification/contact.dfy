/**
 * ContactHandler: the form page, its validation, and the post-redirect-get
 * answer to a submission. The mailer is a parameter: whether sendEmail
 * returns nil for a form.
 */
module Contact {
  import opened Wrappers
  import Http
  import SesMail

  /** The three form values as r.FormValue returns them ("" when absent). */
  datatype Form = Form(name: string, email: string, message: string)

  /** Validation: all three fields non-empty. */
  predicate Filled(f: Form) {
    f.name != "" && f.email != "" && f.message != ""
  }

  /**
   * The template data: Title, Success (set or not), CSRFToken (absent in the
   * older handler), Error, and the echoed Name/Email/Message.
   */
  datatype View = View(title: string, success: bool, csrfToken: Option<string>,
                       error: Option<string>, echoed: Option<Form>)

  /**
   * One request: its method, the value of the `success` query parameter ("" when
   * absent), the form values and the CSRF token the middleware issued.
   */
  datatype Request = Request(verb: string, successParam: string, form: Form, csrfToken: string)

  /** The reply, and the form handed to the mailer if it was called. */
  datatype Outcome = Outcome(reply: Http.Reply<View>, mailed: Option<Form>)

  /** Whether sending the form by e-mail succeeds. */
  type Mailer = Form -> bool

  const Title := "Contato"
  const Template := "contact"
  const SuccessLocation := "/contact?success=true"
  const MissingFieldsError := "Por favor, preencha todos os campos"
  const SendFailedError := "N\U{E3}o foi poss\U{ED}vel enviar o email. Por favor, tente novamente mais tarde."

  /** The data every reply of the handler starts from. */
  function BaseView(req: Request): View {
    View(Title, req.successParam == "true", Some(req.csrfToken), None, None)
  }

  function HandleContact(req: Request, mailer: Mailer): (r: Outcome)
    ensures r.reply.Render? ==> r.reply.template == Template && r.reply.data.title == Title
    ensures r.reply.Render? ==> (r.reply.data.success <==> req.successParam == "true")
    ensures r.reply.Render? ==> r.reply.data.csrfToken == Some(req.csrfToken)
    ensures r.mailed.Some? <==> req.verb == Http.MethodPost && Filled(req.form)
    ensures r.mailed.Some? ==> r.mailed.value == req.form
    ensures req.verb == Http.MethodGet ==> r.reply.Render? && r.reply.data.error.None? && r.reply.data.echoed.None?
    ensures req.verb == Http.MethodPost && !Filled(req.form)
        ==> r.reply.Render? && r.reply.data.error == Some(MissingFieldsError) && r.reply.data.echoed == Some(req.form)
    ensures req.verb == Http.MethodPost && Filled(req.form) && !mailer(req.form)
        ==> r.reply.Render? && r.reply.data.error == Some(SendFailedError) && r.reply.data.echoed == Some(req.form)
    ensures r.reply.Redirect? <==> req.verb == Http.MethodPost && Filled(req.form) && mailer(req.form)
    ensures r.reply.Redirect? ==> r.reply == Http.Redirect(SuccessLocation, Http.StatusSeeOther)
    ensures req.verb != Http.MethodGet && req.verb != Http.MethodPost ==> r == Outcome(Http.Silent, None)
  {
    var view := BaseView(req);
    if req.verb == Http.MethodGet then
      Outcome(Http.Render(Template, view), None)
    else if req.verb == Http.MethodPost then
      if !Filled(req.form) then
        Outcome(Http.Render(Template, view.(error := Some(MissingFieldsError), echoed := Some(req.form))), None)
      else if !mailer(req.form) then
        Outcome(Http.Render(Template, view.(error := Some(SendFailedError), echoed := Some(req.form))), Some(req.form))
      else
        Outcome(Http.Redirect(SuccessLocation, Http.StatusSeeOther), Some(req.form))
    else
      Outcome(Http.Silent, None)
  }

  /**
   * ContactHandler itself answers with 200, 303 or 500: 303 exactly after a
   * successful send, and 500 only when the page template fails before it
   * writes anything. The middleware in front of it can answer first.
   */
  lemma ContactStatuses(req: Request, mailer: Mailer, run: Http.TemplateRun)
    ensures var code := Http.StatusOf(HandleContact(req, mailer).reply, run);
            && (code == Http.StatusOK || code == Http.StatusSeeOther || code == Http.StatusInternalServerError)
            && (code == Http.StatusSeeOther <==> req.verb == Http.MethodPost && Filled(req.form) && mailer(req.form))
            && (code == Http.StatusInternalServerError
                <==> Http.FailsUnwritten(run) && (req.verb == Http.MethodGet || req.verb == Http.MethodPost)
                     && !(req.verb == Http.MethodPost && Filled(req.form) && mailer(req.form)))
  {
  }

  /** The mailer the handler uses: sendEmail over SES under one configuration. */
  function SesMailer(cfg: SesMail.Config, loadAws: SesMail.Config -> bool, ses: SesMail.SendEmailInput -> bool): Mailer {
    (f: Form) => SesMail.SendEmail(cfg, f.name, f.email, f.message, loadAws, ses).error.None?
  }

  /**
   * With the mail configuration incomplete no submission ever succeeds: a
   * filled form is answered with the send-failure page, values echoed.
   */
  lemma IncompleteConfigNeverRedirects(req: Request, cfg: SesMail.Config,
                                       loadAws: SesMail.Config -> bool, ses: SesMail.SendEmailInput -> bool)
    requires !SesMail.Complete(cfg)
    ensures var r := HandleContact(req, SesMailer(cfg, loadAws, ses));
            && !r.reply.Redirect?
            && (req.verb == Http.MethodPost && Filled(req.form) ==> r.reply.Render? && r.reply.data.error == Some(SendFailedError))
  {
    var m := SesMailer(cfg, loadAws, ses);
    assert !m(req.form);
  }
}
