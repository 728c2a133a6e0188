# bloGo request logic, modelled in Dafny

bloGo is a small Go blog server. Most of it is glue around libraries (HTTP routing, templates,
YAML, markdown, mail). Its own logic is a few request-decision procedures and string derivations.
This project models that logic as pure functions over immutable values:

- **Webhook** (`WebHookHandler`, `validateSignature`). An ordered chain of guards: configured
  secret, method, body read, signature, JSON shape. Then the branch check decides whether
  `git pull` runs. The signature is `"sha256="` plus the lower-case hex of an HMAC-SHA256.
  The hex encoder is modelled, together with a strict decoder as its partner.
- **Contact form** (`ContactHandler` and the older `/contact` route). Validation, echoing of
  the submitted values, the mailer call and the post-redirect-get answer.
- **SES mailer** (`sendEmail` in `email.go`). The configuration-completeness guard and the exact
  request handed to SES: sender, recipient, subject, body and charset.
- **Blog loading** (`BlogHandler`, `PostHandler`). Globbed YAML files become a slug-keyed store
  and an ordered list. The first failing file stops the loop, and the store keeps what was
  written before it. A post page looks its slug up in the store.
- **Legacy server** (`cmd/web/main.go`). Cards derived from markdown file names, a post route
  that rebuilds the file path from the URL, a contact route without validation, and an SMTP mailer.

Every I/O result is passed in as a value or a function:

- the HMAC function (returns 32 bytes);
- the JSON `ref` decoder;
- whether `git pull` succeeds;
- `os.ReadFile`, YAML decoding and goldmark conversion, each partial;
- the AWS configuration load, the SES send and the SMTP dial;
- the creation date of a file;
- the glob result;
- the environment values.

Modules: `Wrappers` (Option/Result), `GoStrings` (the `strings`/`filepath` helpers used),
`Bytes`, `Hex`, `Http` (the reply datatype, plus `http.Error` and `http.NotFound` bodies), `Webhook`,
`Contact`, `SesMail`, `Blog` and `Legacy`.

The model follows the code as written:

- An unknown slug on `/posts/{slug}` is not answered with 404. `PostHandler` renders the
  `post` template with a nil post (`Blog.PostPage` returns `None` data).
- A file that fails to read, parse or convert does not get skipped. It aborts the whole
  `/blog` request. Posts stored before it stay, and the list is not shown.
- A successful webhook pull does not reload the store. Posts are reloaded only by the next
  `/blog` request. Entries whose files disappeared are never removed (`Blog.Install` only adds
  or overwrites).
- The router in `cmd/web/routes.go` registers no `/webhook` route. The handler is modelled as
  written, on its own.
- The older mailer sends from the submitter's address with the message text alone as the body.
  The submitter's name is dropped.

## Model

| member | source | states |
|---|---|---|
| `GoStrings.TrimPrefix` | internal/handlers/handlers.go:173 | the result with the prefix put back is the input when the prefix is present; otherwise the input is unchanged |
| `GoStrings.TrimSuffix` | internal/handlers/handlers.go:143 | the result with the suffix put back is the input when the suffix is present; otherwise the input is unchanged |
| `GoStrings.ReplaceChar` | cmd/web/main.go:88 | same length; each `from` becomes `to` and every other character stays; `from` no longer occurs |
| `GoStrings.ToUpperAscii` | cmd/web/main.go:88 | same length, each character upper-cased, no ASCII lower-case letter left |
| `GoStrings.ToSlash` | internal/handlers/handlers.go:142 | same length; each OS separator becomes "/" and every other character is kept |
| `GoStrings.Base` | internal/handlers/handlers.go:143 | never empty; "." for the empty path; the OS separator itself for a path of slashes only; otherwise the last slash-free element once trailing slashes are dropped, preceded by a slash or starting the path; only characters of the path (or that "." or separator) appear |
| `GoStrings.BaseOfNonRoot` | internal/handlers/handlers.go:143 | a path with some character other than "/" has a slash-free base made of its own characters |
| `GoStrings.BaseOfJoin` | internal/handlers/handlers.go:143 | the base of `dir/name` is `name` for a slash-free non-empty name |
| `Hex.Encode` | internal/handlers/handlers.go:261 | two lower-case hex digits per byte |
| `Hex.DecodeEncode` | internal/handlers/handlers.go:261 | decoding the hex text gives back the bytes |
| `Hex.EncodeDecode` | internal/handlers/handlers.go:261 | every text the strict decoder accepts is exactly the encoding of what it decodes to |
| `Hex.EncodeInjective` | internal/handlers/handlers.go:261 | distinct digests have distinct hex texts |
| `Http.Error` | internal/handlers/handlers.go:200 | a failure reply under the given status whose text is the message followed by one newline |
| `Http.NotFound` | internal/handlers/handlers.go:148 | a 404 failure reply with the text "404 page not found" and a newline |
| `Http.StatusOf` | internal/render/render.go:18-33 | a page whose template fails to load, or fails to execute before writing, answers 500; one that executes, or fails after output was written, answers 200; redirects and errors carry their own status; writing nothing answers 200 |
| `Webhook.ValidateSignature` | internal/handlers/handlers.go:257-263 | a valid signature has 71 characters: "sha256=" then 64 lower-case hex digits |
| `Webhook.SignatureCharacterization` | internal/handlers/handlers.go:257-263 | valid iff the header has the "sha256=" prefix and the rest decodes to exactly the HMAC of the body under the secret |
| `Webhook.SignatureDeterminesDigest` | internal/handlers/handlers.go:257-263 | one header can be valid for two (secret, body) pairs only if their HMACs coincide |
| `Webhook.EmptySignatureNeverValid` | internal/handlers/handlers.go:222-226 | a missing header (empty value) never passes the signature check |
| `Webhook.Dispatch` | internal/handlers/handlers.go:237-253 | pull iff ref is "refs/heads/main"; pull success gives 200, pull failure 500; any other ref gives 202 with no pull; the texts are "OK", "failed to pull" plus newline, and "Ignorado" |
| `Webhook.HandleWebhook` | internal/handlers/handlers.go:195-255 | one of 500/405/401/400/200/202; empty secret gives 500 even for non-POST; 401 iff the earlier guards pass but the signature is missing or wrong; 400 iff authenticated but the JSON is undecodable; pull iff authenticated with the main ref; 200 iff pulled and the pull succeeded |
| `Webhook.FirstFailing` | internal/handlers/handlers.go:197-235 | the index returned is a failing guard with every earlier guard holding; None means every guard holds |
| `Webhook.GuardChainDecides` | internal/handlers/handlers.go:197-235 | the first failing guard, in the handler's order, alone fixes the status and error text with no pull; with none failing the ref decides |
| `Contact.HandleContact` | internal/handlers/handlers.go:59-115 | Success shown iff the query value is "true"; the mailer gets the form iff POST with all three fields non-empty; an empty field re-renders with the fixed error and all values echoed; a mailer error re-renders with the generic error and values echoed; mailer success redirects 303 to "/contact?success=true"; other methods write nothing |
| `Contact.ContactStatuses` | internal/handlers/handlers.go:71-114 | the contact handler answers only 200, 303 or 500; 303 iff a filled POST was mailed successfully; 500 iff a page was due and its template failed before writing |
| `Contact.IncompleteConfigNeverRedirects` | internal/handlers/email.go:47-50 | with any mail setting unset, no submission redirects and every filled form gets the send-failure page |
| `SesMail.BuildInput` | internal/handlers/email.go:68-84 | source is the configured sender, destination the single configured recipient, subject "Prospecto via Blog", charset "UTF-8", body "Nome: …\nEmail: …\nMensagem: …" |
| `SesMail.SendEmail` | internal/handlers/email.go:45-94 | incomplete configuration gives an error with SES never called; SES receives the built request iff configuration is complete and the AWS load succeeds; nil error iff SES also accepts it; a send-failure error iff SES refuses the built request |
| `SesMail.EnvelopeIgnoresSubmission` | internal/handlers/email.go:68-80 | sender, recipients, subject and charset are the same for every submission; the submitter's address is only in the body |
| `SesMail.EmailLineRoundTrip` | internal/handlers/email.go:79 | the part after the name line reads back into the address and message when the address is one line |
| `SesMail.BodyRoundTrip` | internal/handlers/email.go:79 | the body reads back into (name, email, message) whenever name and email are single lines |
| `SesMail.BodyAmbiguousAcrossLines` | internal/handlers/email.go:79 | a name containing a line break can make two different submissions produce the same body |
| `Blog.SlugOf` | internal/handlers/handlers.go:142-143 | a slug is the OS separator alone or holds no slash; a file name with any character other than the two separators gives a slug holding neither |
| `Blog.SeparatorOnlySlug` | internal/handlers/handlers.go:142-143 | with a backslash separator, a name made of one separator has the backslash as its slug |
| `Blog.ToSlashOfGlobResult` | internal/handlers/handlers.go:142 | a glob result `posts<sep><tail>` becomes `posts/<tail>` when the tail holds no separator |
| `Blog.SlugOfGlobResult` | internal/handlers/handlers.go:142-144 | for a glob result `posts<sep><name>.yaml` the slug is exactly `<name>`, on either separator |
| `Blog.PreparePost` | internal/handlers/handlers.go:128-152 | read, parse and markdown failures are each reported iff that step fails with the earlier ones succeeding; a loaded post keeps the parsed title, date, excerpt and markdown, carries its file's slug and the HTML the converter gave for its markdown |
| `Blog.Install` | internal/handlers/handlers.go:155 | keys are the old keys plus the posts' slugs; untouched keys keep their posts; every entry stays filed under its own slug |
| `Blog.InstallAppend` | internal/handlers/handlers.go:155 | each write puts the post under its slug, over whatever was there |
| `Blog.InstallLastWins` | internal/handlers/handlers.go:127-158 | with duplicate slugs the store holds the last post carrying the slug |
| `Blog.LoadedPrefix` | internal/handlers/handlers.go:127-158 | the posts of the files before the first failing one, in glob order; the next file, if any, fails |
| `Blog.LoadedPrefixStep` | internal/handlers/handlers.go:127-158 | a loading file extends the run by its post and a failing file ends it |
| `Blog.LoadPosts` | internal/handlers/handlers.go:127-158 | the list is the loaded run; the store has exactly those posts written over the old store, also when the loop aborts; failure iff some file failed, reporting that file's error |
| `Blog.FailureReply` | internal/handlers/handlers.go:128-150 | a read failure answers http.Error "YAML directory reading error" with 500, a parse failure "YAML parser error" with 500, a markdown failure http.NotFound (404); the texts tell the three apart |
| `Blog.BlogHandler` | internal/handlers/handlers.go:119-166 | a glob error answers 500 and leaves the store untouched; otherwise the store gets the loaded run; the blog page is rendered iff every file loaded, with the posts in glob order; else the first failing file's error decides |
| `Blog.LoadedAllInOrder` | internal/handlers/handlers.go:126-157 | when every file loads, there is one post per file in glob order, each with its file's slug |
| `Blog.PostPage` | internal/handlers/handlers.go:172-180 | renders "post" with a post iff the path minus "/posts/" is a key; that post is the stored entry for the key, and carries the key as its slug when entries sit under their own slugs; an unknown slug renders with no post |
| `Blog.UnknownSlugIsNotNotFound` | internal/handlers/handlers.go:172-180 | the post route never answers 404: only 200 or 500, and an unknown slug renders with no post |
| `Blog.ListedPostsResolve` | internal/handlers/handlers.go:143-174 | after a load into a store whose entries sit under their own slugs, every listed post's page shows the store's entry for that slug, which carries the slug |
| `Legacy.Title` | cmd/web/main.go:88 | same length as the slug, no hyphen, hyphens become spaces and letters upper-case |
| `Legacy.CardSlug` | cmd/web/main.go:86 | for a name of the form `posts\<slug>.md` the slug put back between the prefix and ".md" is the name; a name with neither affix is its own slug |
| `Legacy.Card` | cmd/web/main.go:86-91 | constant excerpt; title derived from the slug; link is "posts/" followed by the slug |
| `Legacy.Cards` | cmd/web/main.go:84-92 | one card per globbed file, in glob order |
| `Legacy.BlogPage` | cmd/web/main.go:77-97 | a glob error gives http.Error with "Erro ao ler diretório de posts" and 500; otherwise "blog" is rendered with one card per file in order |
| `Legacy.PostFilePath` | cmd/web/main.go:101-102 | the file read starts with "posts/" and ends with ".md", and stripping both gives back the URL path without "/posts/" |
| `Legacy.PostPage` | cmd/web/main.go:100-126 | rendered iff both conversion and stat succeed, else 404; the "post" template shows the title from the URL slug, the converter's output and the stat oracle's date |
| `Legacy.CardLinkRebuildsFile` | cmd/web/main.go:86-102 | for `posts\<name>.md` the slug is `<name>`, and following the card link reads `posts/<name>.md` |
| `Legacy.SlashGlobKeepsPrefix` | cmd/web/main.go:86 | for a `/`-separated glob result the `posts/` prefix stays in the slug, so the link reads `posts/posts/<name>.md` |
| `Legacy.CardAndPageTitlesAgree` | cmd/web/main.go:86-120 | a card and the page its link opens show the same title |
| `Legacy.LegacyMessage` | cmd/web/main.go:155-163 | From is the submitter, To is the fixed operator address, the subject is fixed, the plain-text body is the message alone |
| `Legacy.LegacySendEmail` | cmd/web/main.go:145-175 | the process exits, with nothing sent, iff the .env file is missing; otherwise the message goes through smtp.gmail.com:587 with the configured credentials; delivered iff the dial succeeds, and a failed dial is a returned failure, not an exit |
| `Legacy.LegacySendIgnoresName` | cmd/web/main.go:145-163 | the submitter's name has no effect on what is sent |
| `Legacy.HandleLegacyContact` | cmd/web/main.go:47-74 | every POST reaches the mailer with no field check; a send failure re-renders with the error and values echoed; a send success redirects 303 to "/contact?success=true"; a process exit writes nothing; methods other than GET and POST write nothing and mail nothing; the data never carries a CSRF token or success flag |
| `Legacy.LegacyStatusOf` | cmd/web/main.go:134-143 | a page answers 500 iff its templates fail to load, otherwise 200, since execution errors are ignored; other replies carry their own status |
| `Legacy.LegacyContactStatuses` | cmd/web/main.go:47-74 | the process exits, with no answer, iff a POST hits a missing .env file; otherwise the route answers only 200, 303 or 500; 303 iff the message was delivered; 500 iff a page was due and its templates failed to load |
| `Legacy.LegacyMailsUnfilledForms` | cmd/web/main.go:52-57 | a form with an empty field is mailed by the older route but not by the current handler |
| `Legacy.VersionsAgreeOnFilledForms` | cmd/web/main.go:52-72 | on a filled form with agreeing mailers, both versions mail the same form and give the same redirect or the same error and echoed values |

## Left out

- HTTP machinery is not modelled: response writers, chi routing, CORS, the nosurf and scs
  middleware, and the session `Put` in the home handler. The CSRF token is an input value.
  The `success` query value and the form values are inputs too, as `Query().Get` and
  `FormValue` return them.
- Template parsing and execution are not modelled. A template run is a parameter: executed,
  failed to load, or failed during execution with or without output written.
- Http.StatusOf: gives the status only. The partial page written before an execution failure,
  and the error text appended after it, are not modelled.
- Contact.ContactStatuses: covers the handler, not the whole route. The CSRF middleware
  (`cmd/web/middlewares.go` lines 15-17, exempting only `/webhook`) answers 400 to a POST
  without a valid token before the handler runs. The router registers `/contact` for GET and
  POST only (`cmd/web/routes.go` lines 29-30), so it answers 405 to any other method, where
  the handler alone would write nothing (200).
- Legacy.LegacyStatusOf: gives the status only. The "Erro ao carregar template" text written
  on a load failure is not modelled.
- The home, about and services handlers are not modelled. They only render a static title.
- YAML decoding, goldmark conversion, HMAC-SHA256, JSON decoding, `git pull`, the AWS SDK,
  gomail and `godotenv`/`os.Getenv` are not modelled. Each is an oracle parameter.
- Logging (`log.Printf`, `slog`) is left out. It does not change any reply.
- Webhook.ValidateSignature: the constant-time property of `hmac.Equal` is not modelled.
  The comparison is plain equality of the two texts.
- Legacy.Title: `strings.ToTitle` is modelled for ASCII only. Non-ASCII letters are left
  unchanged, where Go would title-case them.
- GoStrings.Base: splits at `/` only. On Windows Go also splits at `\`, which never occurs
  after `filepath.ToSlash`, and strips volume names, which is not modelled.
- Blog.SlugOf: no longer promises a backslash-free slug for every file name. A name made only
  of separators gives the separator itself, as `filepath.Base` returns it on Windows.
- GoStrings: the helpers work on characters. Go works on bytes, and the two agree on valid
  UTF-8 text.
- The Windows-only creation-time lookup and its date formatting are left out (`cmd/web/main.go`
  lines 110-117). `Legacy.PostPage` takes the formatted date, or its absence, as a parameter.
- Filesystem globbing is left out. The glob result is an input, in glob order.
- internal/config/config.go holds only constants and logger/session construction. Nothing
  there is modelled. Its `Post` type and `PostDataMap` store are not shown; they are modelled
  as `Blog.Post` and `Blog.Store`.
- Static JavaScript files are left out (DOM effects only).
- Concurrent access to the shared post store is left out. The model is sequential.
