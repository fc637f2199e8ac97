/** The gated-download flow (`Download_Handler` class) as a state machine.

    The state is the per-post file records, the download tokens (WordPress
    transients `wprl_download_<token>` holding a post id, valid for 24 hours)
    and the download-requests table.  Each request handler is a function from
    the state and the request to the new state and the reply; its chain of
    rejections is kept in the order of the source.  Everything the handlers
    ask WordPress for that the model cannot compute — nonce checks,
    `sanitize_text_field`, `sanitize_email`, `is_email`, the random token,
    the clock, whether the database write succeeds, whether an attached file
    is on disk — arrives as a parameter. */
module Downloads {
  import opened Wrappers
  import opened PhpValue
  import FileData
  import Mobile
  import Database
  import Settings

  /** `24 * 60 * 60`: how long a token stays valid, in seconds. */
  const TokenLifetime := 24 * 60 * 60

  /** A stored token: the post it opens and the last second it is valid. */
  datatype Grant = Grant(postId: int, expires: int)

  datatype Site = Site(
    meta: map<int, Value>,      // `_wprl_file_data` of each post
    grants: map<string, Grant>, // token => transient
    table: Database.Table)      // download requests

  /** What WordPress and PHP guarantee about the stored values: meta is
      kept under positive post ids and stored arrays have distinct keys. */
  ghost predicate Valid(site: Site) {
    MetaValid(site.meta) && Database.Valid(site.table)
  }

  ghost predicate MetaValid(meta: map<int, Value>) {
    forall p :: p in meta ==> p > 0 && FileData.WellFormed(meta[p])
  }

  /** The WordPress helpers the handlers call, as given functions. */
  datatype Wp = Wp(
    sanitizeText: string -> string,
    sanitizeEmail: string -> string,
    isEmail: string -> bool)

  /** Facts about the request that come from outside the plugin.  The
      plugin reads two clocks: `now` is `time()`, the Unix time that token
      expiry counts from, and `localNow` is `current_time( 'mysql' )`, the
      site's wall-clock time that a request row is dated with.  Both are in
      seconds; they differ by the site's time-zone offset. */
  datatype Env = Env(now: int, localNow: int, ip: string, userAgent: string, dbFails: bool)

  /** The post whose meta WordPress reads and writes for an id: the meta
      functions pass the id through `absint`. */
  function MetaKey(postId: int): (k: nat)
    ensures k > 0 <==> postId != 0
  {
    if postId < 0 then -postId else postId
  }

  /** `get_post_meta( $post_id, '_wprl_file_data', true )`: `''` when the
      post has none.  Post 0 stands for `get_the_ID()`, which has no post
      to give inside an AJAX request. */
  function FileMeta(site: Site, postId: int): (v: Value)
    ensures v == Str("") || (MetaKey(postId) in site.meta && v == site.meta[MetaKey(postId)])
  {
    if postId != 0 && MetaKey(postId) in site.meta then site.meta[MetaKey(postId)] else Str("")
  }

  /** A negative id reads the record of the post with the positive id. */
  lemma MetaIgnoresSign(site: Site, postId: int)
    ensures FileMeta(site, 0 - postId) == FileMeta(site, postId)
  {
  }

  /** `update_post_meta( $post_id, '_wprl_file_data', $v )`: written under
      the id's `absint`; nothing is written for id 0. */
  function WriteMeta(site: Site, postId: int, v: Value): (s: Site)
    ensures s.grants == site.grants && s.table == site.table
  {
    if postId == 0 then site else site.(meta := site.meta[MetaKey(postId) := v])
  }

  /** Every post's file record is a well-formed PHP value. */
  lemma ValidMeta(site: Site, postId: int)
    requires MetaValid(site.meta)
    ensures FileData.WellFormed(FileMeta(site, postId))
  {
  }

  /** Only a real post has a file. */
  lemma FileMeansPost(site: Site, postId: int)
    requires MetaValid(site.meta) && FileData.HasFile(FileMeta(site, postId))
    ensures postId != 0 && MetaKey(postId) in site.meta
  {
  }

  /** `get_transient( 'wprl_download_' . $token )`: the post id, while the
      token has not expired.  WordPress deletes a transient whose timeout
      lies before the current time, so the last second is still valid. */
  function Transient(site: Site, token: string, now: int): (r: Option<int>)
    ensures r.Some? ==> token in site.grants && r.value == site.grants[token].postId
    ensures r.None? <==> token !in site.grants || site.grants[token].expires < now
  {
    if token in site.grants && now <= site.grants[token].expires then Some(site.grants[token].postId)
    else None
  }

  /** The query arguments of a download link, in the order
      `add_query_arg` receives them. */
  datatype DownloadUrl = DownloadUrl(wprlDownload: string, token: string, postId: string)

  /** A JSON reply of an AJAX handler.  `NonceFailed` is
      `check_ajax_referer` ending the request. */
  datatype Reply =
    | NonceFailed
    | JsonError(message: string)
    | JsonSuccess(notice: Option<string>, downloadUrl: DownloadUrl)

  datatype Step = Step(site: Site, reply: Reply)

  const MsgMissing := "Required fields are missing."
  const MsgFillRequired := "Please fill in all required fields."
  const MsgBadMobile := "Please enter a valid mobile number (minimum 7 digits)."
  const MsgBadEmail := "Please enter a valid email address."
  const MsgNoFile := "File not found."
  const MsgSubmitDb := "Database error occurred. Please try again."
  const MsgThanks := "Thank you! Your download will start shortly."
  const MsgTokenRequired := "Download token is required."
  const MsgBadToken := "Invalid download token."
  const MsgTokenExpired := "Download token has expired. Please request the file again."
  const MsgNotLoggedIn := "You must be logged in to download files directly."
  const MsgPostRequired := "Post ID is required."
  const MsgBadPost := "Invalid post ID."
  const MsgDirectDb := "Error saving your request. Please try again."
  const NotProvided := "Not provided"

  // ---------------------------------------------------------------------
  // Issuing a token
  // ---------------------------------------------------------------------

  /** `generate_download_token_and_url`: the post's counter goes up, the
      token is stored for 24 hours, and the link carries the token and the
      post id. */
  function IssueToken(site: Site, postId: int, token: string, now: int): (r: (Site, DownloadUrl))
    ensures r.0.table == site.table
    ensures r.1 == DownloadUrl("1", token, Decimal(postId))
  {
    var counted := WriteMeta(site, postId, FileData.IncrementDownloadCount(FileMeta(site, postId)));
    var grants := site.grants[token := Grant(postId, now + TokenLifetime)];
    (counted.(grants := grants), DownloadUrl("1", token, Decimal(postId)))
  }

  /** Issuing a token keeps the stored values well formed. */
  lemma IssueTokenValid(site: Site, postId: int, token: string, now: int)
    requires Valid(site)
    ensures Valid(IssueToken(site, postId, token, now).0)
  {
    var s := IssueToken(site, postId, token, now).0;
    var m := FileMeta(site, postId);
    var bumped := FileData.IncrementDownloadCount(m);
    assert s.meta == WriteMeta(site, postId, bumped).meta;
    forall p | p in s.meta
      ensures p > 0 && FileData.WellFormed(s.meta[p])
    {
      if postId != 0 && p == MetaKey(postId) {
        FileData.IncrementKeepsWellFormed(m);
      } else {
        assert s.meta[p] == site.meta[p];
      }
    }
  }

  /** Issuing rewrites the post's file record with the counter raised. */
  lemma IssueTokenWrites(site: Site, postId: int, token: string, now: int)
    requires postId != 0
    ensures FileMeta(IssueToken(site, postId, token, now).0, postId)
         == FileData.IncrementDownloadCount(FileMeta(site, postId))
  {
  }

  /** Writing one post's record leaves the others' records alone. */
  lemma WriteKeepsOther(site: Site, s: Site, postId: int, v: Value, other: int)
    requires s == WriteMeta(site, postId, v) && MetaKey(other) != MetaKey(postId)
    ensures FileMeta(s, other) == FileMeta(site, other)
  {
    assert MetaKey(other) in s.meta <==> MetaKey(other) in site.meta;
  }

  /** Issuing leaves alone the record of every post other than the one
      WordPress writes to, which for a negative id is its `absint`. */
  lemma IssueTokenKeepsOther(site: Site, postId: int, token: string, now: int, other: int)
    requires MetaKey(other) != MetaKey(postId)
    ensures FileMeta(IssueToken(site, postId, token, now).0, other) == FileMeta(site, other)
  {
    var v := FileData.IncrementDownloadCount(FileMeta(site, postId));
    WriteKeepsOther(site, WriteMeta(site, postId, v), postId, v, other);
  }

  /** Issuing counts one more download of the post and keeps its file. */
  lemma IssueTokenMeta(site: Site, postId: int, token: string, now: int)
    requires FileData.WellFormed(FileMeta(site, postId)) && postId != 0
    ensures var s := IssueToken(site, postId, token, now).0;
      && FileData.DownloadCount(FileMeta(s, postId)) == FileData.DownloadCount(FileMeta(site, postId)) + 1
      && FileData.FileUrl(FileMeta(s, postId)) == FileData.FileUrl(FileMeta(site, postId))
  {
    var m := FileMeta(site, postId);
    IssueTokenWrites(site, postId, token, now);
    FileData.IncrementRaisesCount(m);
    FileData.IncrementKeepsFile(m);
  }

  /** Issuing grants the token for 24 hours from now and changes no other
      token. */
  lemma IssueTokenGrant(site: Site, postId: int, token: string, now: int, later: int)
    ensures var s := IssueToken(site, postId, token, now).0;
      && Transient(s, token, later) == (if later <= now + TokenLifetime then Some(postId) else None)
      && (forall t :: t != token ==> Transient(s, t, later) == Transient(site, t, later))
  {
    var s := IssueToken(site, postId, token, now).0;
    GrantSets(site, s, token, Grant(postId, now + TokenLifetime), later);
    forall t | t != token
      ensures Transient(s, t, later) == Transient(site, t, later)
    {
      GrantKeepsOther(site, s, token, Grant(postId, now + TokenLifetime), t, later);
    }
  }

  /** Storing a grant makes the token live until the grant expires. */
  lemma GrantSets(site: Site, s: Site, token: string, g: Grant, later: int)
    requires s.grants == site.grants[token := g]
    ensures Transient(s, token, later) == if later <= g.expires then Some(g.postId) else None
  {
  }

  /** Storing a grant leaves every other token as it was. */
  lemma GrantKeepsOther(site: Site, s: Site, token: string, g: Grant, t: string, later: int)
    requires s.grants == site.grants[token := g] && t != token
    ensures Transient(s, t, later) == Transient(site, t, later)
  {
    assert t in s.grants <==> t in site.grants;
  }

  // ---------------------------------------------------------------------
  // submit_download_form
  // ---------------------------------------------------------------------

  /** The POST fields of the download form, before sanitising; `None` is a
      field that was not sent. */
  datatype FormPost = FormPost(
    nonceOk: bool,
    postId: Option<string>,
    userName: Option<string>,
    userEmail: Option<string>,
    userMobile: Option<string>)

  /** The part of a submission that stores the request and issues the
      token, once every check has passed. */
  function Accept(site: Site, env: Env, postId: int, name: string, email: string, mobile: string,
                  token: string, message: Option<string>, dbMessage: string): (r: Step)
    ensures r.reply.JsonSuccess? <==> !env.dbFails
    ensures r.reply.JsonError? ==> r.site == site && r.reply.message == dbMessage
  {
    var row := Database.Row(0, postId, name, email, mobile, env.localNow, env.ip, env.userAgent);
    var ins := Database.Insert(site.table, row, env.dbFails);
    if ins.insertId.None? then Step(site, JsonError(dbMessage))
    else
      var stored := Stored(site, env, postId, name, email, mobile);
      var (s, url) := IssueToken(stored, postId, token, env.now);
      Step(s, JsonSuccess(message, url))
  }

  /** Accepting a submission keeps the site valid. */
  lemma AcceptKeepsValid(site: Site, env: Env, postId: int, name: string, email: string, mobile: string,
                         token: string, message: Option<string>, dbMessage: string)
    requires Valid(site)
    ensures Valid(Accept(site, env, postId, name, email, mobile, token, message, dbMessage).site)
  {
    if !env.dbFails {
      var row := Database.Row(0, postId, name, email, mobile, env.localNow, env.ip, env.userAgent);
      Database.InsertKeepsValid(site.table, row, false);
      IssueTokenValid(Stored(site, env, postId, name, email, mobile), postId, token, env.now);
    }
  }

  /** The sanitised name and mobile number of a submission. */
  function NameOf(wp: Wp, post: FormPost): string
    requires post.userName.Some?
  {
    wp.sanitizeText(post.userName.value)
  }

  function MobileOf(wp: Wp, post: FormPost): string
    requires post.userMobile.Some?
  {
    wp.sanitizeText(post.userMobile.value)
  }

  function EmailOf(wp: Wp, post: FormPost): string {
    if post.userEmail.Some? then wp.sanitizeEmail(post.userEmail.value) else ""
  }

  function PostIdOf(post: FormPost): int
    requires post.postId.Some?
  {
    IntVal(Str(post.postId.value))
  }

  /** The checks of `submit_download_form` after the required fields: the
      mobile number (when one is given; the written handler reaches here
      only with one), the email address when one is given, and the post's
      file; then the request is stored. */
  function Screen(site: Site, wp: Wp, env: Env, postId: int, name: string, email: string, mobile: string,
                  token: string): (r: Step)
    ensures !r.reply.JsonSuccess? ==> r.site == site
  {
    if !EmptyString(mobile) && !Mobile.IsValidMobilePhp(mobile) then Step(site, JsonError(MsgBadMobile))
    else if !EmptyString(email) && !wp.isEmail(email) then Step(site, JsonError(MsgBadEmail))
    else if !FileData.HasFile(FileMeta(site, postId)) then Step(site, JsonError(MsgNoFile))
    else Accept(site, env, postId, name, email, mobile, token, Some(MsgThanks), MsgSubmitDb)
  }

  /** The checks keep the site valid: only a post with a file, hence a
      real post, is written to. */
  lemma ScreenKeepsValid(site: Site, wp: Wp, env: Env, postId: int, name: string, email: string, mobile: string,
                         token: string)
    requires Valid(site)
    ensures Valid(Screen(site, wp, env, postId, name, email, mobile, token).site)
  {
    if FileData.HasFile(FileMeta(site, postId)) {
      FileMeansPost(site, postId);
      AcceptKeepsValid(site, env, postId, name, email, mobile, token, Some(MsgThanks), MsgSubmitDb);
    }
  }

  /** `submit_download_form`. */
  function SubmitDownloadForm(site: Site, wp: Wp, env: Env, post: FormPost, token: string): (r: Step)
    ensures !r.reply.JsonSuccess? ==> r.site == site
    ensures !post.nonceOk <==> r.reply == NonceFailed
  {
    if !post.nonceOk then Step(site, NonceFailed)
    else if post.postId.None? || post.userName.None? || post.userMobile.None? then
      Step(site, JsonError(MsgMissing))
    else
      var postId := PostIdOf(post);
      var name := NameOf(wp, post);
      var email := EmailOf(wp, post);
      var mobile := MobileOf(wp, post);
      if EmptyString(name) || EmptyString(mobile) then Step(site, JsonError(MsgFillRequired))
      else Screen(site, wp, env, postId, name, email, mobile, token)
  }

  /** A submission keeps the site valid. */
  lemma SubmitKeepsValid(site: Site, wp: Wp, env: Env, post: FormPost, token: string)
    requires Valid(site)
    ensures Valid(SubmitDownloadForm(site, wp, env, post, token).site)
  {
    if Complete(post) && !EmptyString(NameOf(wp, post)) && !EmptyString(MobileOf(wp, post)) {
      ScreenKeepsValid(site, wp, env, PostIdOf(post), NameOf(wp, post), EmailOf(wp, post), MobileOf(wp, post), token);
    }
  }

  /** A submission without a post id, a name or a mobile number is turned
      away before anything else is looked at; the e-mail may be absent. */
  lemma MissingFieldRejectedFirst(site: Site, wp: Wp, env: Env, post: FormPost, token: string)
    requires post.nonceOk
    ensures (post.postId.None? || post.userName.None? || post.userMobile.None?)
        <==> SubmitDownloadForm(site, wp, env, post, token).reply == JsonError(MsgMissing)
  {
  }

  /** A submission that carries all three required fields. */
  predicate Complete(post: FormPost) {
    post.nonceOk && post.postId.Some? && post.userName.Some? && post.userMobile.Some?
  }

  /** An empty name or mobile number wins over every later check: the
      number's format, the e-mail and the file are not looked at. */
  lemma EmptyRequiredRejected(site: Site, wp: Wp, env: Env, post: FormPost, token: string)
    requires Complete(post)
    requires EmptyString(NameOf(wp, post)) || EmptyString(MobileOf(wp, post))
    ensures SubmitDownloadForm(site, wp, env, post, token) == Step(site, JsonError(MsgFillRequired))
  {
  }

  /** An invalid mobile number wins over a bad e-mail and a missing file. */
  lemma BadMobileRejected(site: Site, wp: Wp, env: Env, post: FormPost, token: string)
    requires Complete(post)
    requires !EmptyString(NameOf(wp, post)) && !EmptyString(MobileOf(wp, post))
    requires !Mobile.IsValidMobilePhp(MobileOf(wp, post))
    ensures SubmitDownloadForm(site, wp, env, post, token) == Step(site, JsonError(MsgBadMobile))
  {
  }

  /** A non-empty e-mail that `is_email` refuses wins over a missing file. */
  lemma BadEmailRejected(site: Site, wp: Wp, env: Env, post: FormPost, token: string)
    requires Complete(post)
    requires !EmptyString(NameOf(wp, post)) && Mobile.IsValidMobilePhp(MobileOf(wp, post))
    requires !EmptyString(EmailOf(wp, post)) && !wp.isEmail(EmailOf(wp, post))
    ensures SubmitDownloadForm(site, wp, env, post, token) == Step(site, JsonError(MsgBadEmail))
  {
  }

  /** Past the contact checks, a post without a file is refused. */
  lemma NoFileRejected(site: Site, wp: Wp, env: Env, post: FormPost, token: string)
    requires Complete(post)
    requires !EmptyString(NameOf(wp, post)) && Mobile.IsValidMobilePhp(MobileOf(wp, post))
    requires EmptyString(EmailOf(wp, post)) || wp.isEmail(EmailOf(wp, post))
    requires !FileData.HasFile(FileMeta(site, PostIdOf(post)))
    ensures SubmitDownloadForm(site, wp, env, post, token) == Step(site, JsonError(MsgNoFile))
  {
  }

  /** The site once the request row is stored. */
  function Stored(site: Site, env: Env, postId: int, name: string, email: string, mobile: string): (s: Site)
    ensures s.meta == site.meta && s.grants == site.grants
  {
    var row := Database.Row(0, postId, name, email, mobile, env.localNow, env.ip, env.userAgent);
    site.(table := Database.Insert(site.table, row, false).table)
  }

  /** When the database takes the row, accepting is storing it and then
      issuing the token. */
  lemma AcceptStoresThenIssues(site: Site, env: Env, postId: int, name: string, email: string, mobile: string,
                               token: string, message: Option<string>, dbMessage: string)
    requires !env.dbFails
    ensures var stored := Stored(site, env, postId, name, email, mobile);
      var issued := IssueToken(stored, postId, token, env.now);
      && stored.meta == site.meta && stored.grants == site.grants
      && Accept(site, env, postId, name, email, mobile, token, message, dbMessage)
           == Step(issued.0, JsonSuccess(message, issued.1))
  {
  }

  /** Accepting adds exactly one row, holding what was submitted. */
  lemma AcceptRecords(site: Site, env: Env, postId: int, name: string, email: string, mobile: string,
                      token: string, message: Option<string>, dbMessage: string)
    requires !env.dbFails
    ensures var r := Accept(site, env, postId, name, email, mobile, token, message, dbMessage);
      && r.reply == JsonSuccess(message, DownloadUrl("1", token, Decimal(postId)))
      && |r.site.table.rows| == |site.table.rows| + 1
      && r.site.table.rows[..|site.table.rows|] == site.table.rows
      && r.site.table.rows[|site.table.rows|]
           == Database.Row(site.table.nextId, postId, name, email, mobile, env.localNow, env.ip, env.userAgent)
  {
    AcceptStoresThenIssues(site, env, postId, name, email, mobile, token, message, dbMessage);
  }

  /** Accepting counts one more download of the post and keeps its file. */
  lemma AcceptCounts(site: Site, env: Env, postId: int, name: string, email: string, mobile: string,
                     token: string, message: Option<string>, dbMessage: string)
    requires !env.dbFails && postId != 0 && FileData.WellFormed(FileMeta(site, postId))
    ensures var r := Accept(site, env, postId, name, email, mobile, token, message, dbMessage);
      && FileData.DownloadCount(FileMeta(r.site, postId)) == FileData.DownloadCount(FileMeta(site, postId)) + 1
      && FileData.FileUrl(FileMeta(r.site, postId)) == FileData.FileUrl(FileMeta(site, postId))
  {
    AcceptStoresThenIssues(site, env, postId, name, email, mobile, token, message, dbMessage);
    var stored := Stored(site, env, postId, name, email, mobile);
    assert FileMeta(stored, postId) == FileMeta(site, postId);
    IssueTokenMeta(stored, postId, token, env.now);
  }

  /** Accepting leaves every other post's file record alone. */
  lemma AcceptKeepsOthers(site: Site, env: Env, postId: int, name: string, email: string, mobile: string,
                          token: string, message: Option<string>, dbMessage: string, other: int)
    requires !env.dbFails && MetaKey(other) != MetaKey(postId)
    ensures FileMeta(Accept(site, env, postId, name, email, mobile, token, message, dbMessage).site, other)
         == FileMeta(site, other)
  {
    AcceptStoresThenIssues(site, env, postId, name, email, mobile, token, message, dbMessage);
    var stored := Stored(site, env, postId, name, email, mobile);
    IssueTokenKeepsOther(stored, postId, token, env.now, other);
  }

  /** Accepting grants the token for 24 hours and touches no other token. */
  lemma AcceptGrants(site: Site, env: Env, postId: int, name: string, email: string, mobile: string,
                     token: string, message: Option<string>, dbMessage: string, later: int)
    requires !env.dbFails
    ensures var r := Accept(site, env, postId, name, email, mobile, token, message, dbMessage);
      && Transient(r.site, token, later) == (if later <= env.now + TokenLifetime then Some(postId) else None)
      && (forall t :: t != token ==> Transient(r.site, t, later) == Transient(site, t, later))
  {
    AcceptStoresThenIssues(site, env, postId, name, email, mobile, token, message, dbMessage);
    var stored := Stored(site, env, postId, name, email, mobile);
    IssueTokenGrant(stored, postId, token, env.now, later);
  }

  /** Storing the request and issuing the token when the database accepts
      the row: exactly one row is added, holding what was submitted; the
      post's counter goes up by one and its file stays; the token is stored
      for that post for 24 hours; the link carries the token and the post
      id. */
  lemma AcceptSucceeds(site: Site, env: Env, postId: int, name: string, email: string, mobile: string,
                       token: string, message: Option<string>, dbMessage: string, later: int)
    requires !env.dbFails && postId != 0 && FileData.WellFormed(FileMeta(site, postId))
    ensures var r := Accept(site, env, postId, name, email, mobile, token, message, dbMessage);
      && r.reply == JsonSuccess(message, DownloadUrl("1", token, Decimal(postId)))
      && |r.site.table.rows| == |site.table.rows| + 1
      && r.site.table.rows[..|site.table.rows|] == site.table.rows
      && r.site.table.rows[|site.table.rows|]
           == Database.Row(site.table.nextId, postId, name, email, mobile, env.localNow, env.ip, env.userAgent)
      && FileData.DownloadCount(FileMeta(r.site, postId)) == FileData.DownloadCount(FileMeta(site, postId)) + 1
      && FileData.FileUrl(FileMeta(r.site, postId)) == FileData.FileUrl(FileMeta(site, postId))
      && (forall p :: MetaKey(p) != MetaKey(postId) ==> FileMeta(r.site, p) == FileMeta(site, p))
      && Transient(r.site, token, later) == (if later <= env.now + TokenLifetime then Some(postId) else None)
      && (forall t :: t != token ==> Transient(r.site, t, later) == Transient(site, t, later))
  {
    AcceptRecords(site, env, postId, name, email, mobile, token, message, dbMessage);
    AcceptCounts(site, env, postId, name, email, mobile, token, message, dbMessage);
    AcceptGrants(site, env, postId, name, email, mobile, token, message, dbMessage, later);
    forall p | MetaKey(p) != MetaKey(postId)
      ensures FileMeta(Accept(site, env, postId, name, email, mobile, token, message, dbMessage).site, p)
           == FileMeta(site, p)
    {
      AcceptKeepsOthers(site, env, postId, name, email, mobile, token, message, dbMessage, p);
    }
  }

  /** The checks a submission must pass before it is stored. */
  predicate PassesChecks(site: Site, wp: Wp, post: FormPost) {
    && Complete(post)
    && !EmptyString(NameOf(wp, post)) && !EmptyString(MobileOf(wp, post))
    && Mobile.IsValidMobilePhp(MobileOf(wp, post))
    && (EmptyString(EmailOf(wp, post)) || wp.isEmail(EmailOf(wp, post)))
    && FileData.HasFile(FileMeta(site, PostIdOf(post)))
  }

  /** A submission succeeds exactly when it passes every check and the
      database takes the row; it then is the accepting step. */
  lemma SubmitAccepts(site: Site, wp: Wp, env: Env, post: FormPost, token: string)
    ensures SubmitDownloadForm(site, wp, env, post, token).reply.JsonSuccess?
        <==> PassesChecks(site, wp, post) && !env.dbFails
    ensures PassesChecks(site, wp, post) ==>
      SubmitDownloadForm(site, wp, env, post, token)
        == Accept(site, env, PostIdOf(post), NameOf(wp, post), EmailOf(wp, post), MobileOf(wp, post),
                  token, Some(MsgThanks), MsgSubmitDb)
  {
    if PassesChecks(site, wp, post) {
      var postId, name, email, mobile := PostIdOf(post), NameOf(wp, post), EmailOf(wp, post), MobileOf(wp, post);
      assert SubmitDownloadForm(site, wp, env, post, token) == Screen(site, wp, env, postId, name, email, mobile, token);
    }
  }

  /** A submitted request is dated on the site's clock, while the
      retention cleanup measures its cutoff on the database's clock: the
      new row survives a cleanup exactly when the site's time at
      submission is at or after the database's time less the period.  With
      the two clocks in different zones the row is kept the offset longer,
      or shorter, than the period. */
  lemma SubmittedRowRetention(site: Site, wp: Wp, env: Env, post: FormPost, token: string,
                              dbNow: int, days: int)
    requires PassesChecks(site, wp, post) && !env.dbFails
    ensures var r := SubmitDownloadForm(site, wp, env, post, token);
      var row := Database.Row(site.table.nextId, PostIdOf(post), NameOf(wp, post), EmailOf(wp, post),
                              MobileOf(wp, post), env.localNow, env.ip, env.userAgent);
      && row in r.site.table.rows
      && (var kept := Database.CleanupDownloadRequests(r.site.table, dbNow, days, false).table.rows;
          row in kept <==> env.localNow >= Database.Cutoff(dbNow, days))
  {
    var postId, name, email, mobile := PostIdOf(post), NameOf(wp, post), EmailOf(wp, post), MobileOf(wp, post);
    SubmitAccepts(site, wp, env, post, token);
    var r := Accept(site, env, postId, name, email, mobile, token, Some(MsgThanks), MsgSubmitDb);
    AcceptRecords(site, env, postId, name, email, mobile, token, Some(MsgThanks), MsgSubmitDb);
    var row := Database.Row(site.table.nextId, postId, name, email, mobile, env.localNow, env.ip, env.userAgent);
    assert r.site.table.rows[|site.table.rows|] == row;
    Database.CleanupKeepsRecent(r.site.table, [], dbNow, days, row, Database.LogRow(0, "", ""));
  }

  /** What a successful submission does, in the terms of the form. */
  lemma SubmitSuccess(site: Site, wp: Wp, env: Env, post: FormPost, token: string, later: int)
    requires Valid(site) && PassesChecks(site, wp, post) && !env.dbFails
    ensures var r := SubmitDownloadForm(site, wp, env, post, token);
      var postId := PostIdOf(post);
      && r.reply == JsonSuccess(Some(MsgThanks), DownloadUrl("1", token, Decimal(postId)))
      && |r.site.table.rows| == |site.table.rows| + 1
      && r.site.table.rows[|site.table.rows|]
           == Database.Row(site.table.nextId, postId, NameOf(wp, post), EmailOf(wp, post),
                           MobileOf(wp, post), env.localNow, env.ip, env.userAgent)
      && FileData.DownloadCount(FileMeta(r.site, postId)) == FileData.DownloadCount(FileMeta(site, postId)) + 1
      && Transient(r.site, token, later) == (if later <= env.now + TokenLifetime then Some(postId) else None)
  {
    SubmitAccepts(site, wp, env, post, token);
    FileMeansPost(site, PostIdOf(post));
    AcceptSucceeds(site, env, PostIdOf(post), NameOf(wp, post), EmailOf(wp, post), MobileOf(wp, post),
                   token, Some(MsgThanks), MsgSubmitDb, later);
  }

  // ---------------------------------------------------------------------
  // process_download
  // ---------------------------------------------------------------------

  datatype ProcessPost = ProcessPost(nonceOk: bool, token: Option<string>)

  /** `process_download`: turns a token into a download link.  It reads the
      state and changes nothing. */
  function ProcessDownload(site: Site, wp: Wp, now: int, post: ProcessPost): (r: Reply)
    ensures r.JsonSuccess? ==> r.notice.None? && r.downloadUrl.wprlDownload == "1"
    ensures r.JsonSuccess? ==> (
      && post.token.Some?
      && r.downloadUrl.token == wp.sanitizeText(post.token.value)
      && Transient(site, r.downloadUrl.token, now).Some?)
  {
    if !post.nonceOk then NonceFailed
    else if post.token.None? then JsonError(MsgTokenRequired)
    else
      var token := wp.sanitizeText(post.token.value);
      if EmptyString(token) then JsonError(MsgBadToken)
      else match Transient(site, token, now)
        case None => JsonError(MsgTokenExpired)
        case Some(postId) =>
          if !FileData.HasFile(FileMeta(site, postId)) then JsonError(MsgNoFile)
          else JsonSuccess(None, DownloadUrl("1", token, Decimal(postId)))
  }

  /** The refusals of `process_download`, each in force only once the
      earlier checks have passed, and the success that remains. */
  lemma ProcessRejectsInOrder(site: Site, wp: Wp, now: int, post: ProcessPost)
    requires post.nonceOk
    ensures post.token.None? ==> ProcessDownload(site, wp, now, post) == JsonError(MsgTokenRequired)
    ensures post.token.Some? ==>
      var token := wp.sanitizeText(post.token.value);
      var r := ProcessDownload(site, wp, now, post);
      && (EmptyString(token) ==> r == JsonError(MsgBadToken))
      && (!EmptyString(token) && Transient(site, token, now).None? ==> r == JsonError(MsgTokenExpired))
      && (!EmptyString(token) && Transient(site, token, now).Some? ==>
            var postId := Transient(site, token, now).value;
            r == if FileData.HasFile(FileMeta(site, postId)) then JsonSuccess(None, DownloadUrl("1", token, Decimal(postId)))
                 else JsonError(MsgNoFile))
  {
  }

  // ---------------------------------------------------------------------
  // handle_download_request
  // ---------------------------------------------------------------------

  /** The query arguments `handle_download_request` reads. */
  datatype DownloadGet = DownloadGet(wprlDownload: Option<string>, postId: Option<string>, token: Option<string>)

  /** What the request ends in: not a download request at all, `wp_die`
      with a message, the attached file sent from disk, or a redirect to the
      file's URL. */
  datatype Served = NotADownload | Die(message: string) | Stream(path: string) | Redirect(url: Value)

  const MsgMissingParams := "Invalid download request. Missing parameters."
  const MsgInvalidRequest := "Invalid download request."
  const MsgLinkExpired := "Download token has expired or is invalid. Please request the file again."
  const MsgWrongPost := "Invalid download token for this file."
  const MsgNotOnServer := "File not found on server."

  /** The link of a download request as the handler sees it. */
  predicate IsDownloadLink(wp: Wp, get: DownloadGet) {
    get.wprlDownload.Some? && wp.sanitizeText(get.wprlDownload.value) == "1"
  }

  /** The checks and the delivery of `handle_download_request`, without the
      state.  `onDisk` gives the path `get_attached_file` returns for a file
      id when that file exists. */
  function Serve(site: Site, wp: Wp, now: int, get: DownloadGet, onDisk: Value -> Option<string>): (r: Served)
    ensures !IsDownloadLink(wp, get) <==> r == NotADownload
    ensures r.Stream? || r.Redirect? ==>
      && get.postId.Some? && get.token.Some?
      && Transient(site, wp.sanitizeText(get.token.value), now) == Some(IntVal(Str(get.postId.value)))
      && IntVal(Str(get.postId.value)) > 0
      && FileData.HasFile(FileMeta(site, IntVal(Str(get.postId.value))))
  {
    if !IsDownloadLink(wp, get) then NotADownload
    else if get.postId.None? || get.token.None? then Die(MsgMissingParams)
    else
      var postId := IntVal(Str(get.postId.value));
      var token := wp.sanitizeText(get.token.value);
      if postId <= 0 || EmptyString(token) then Die(MsgInvalidRequest)
      else match Transient(site, token, now)
        case None => Die(MsgLinkExpired)
        case Some(stored) =>
          if stored != postId then Die(MsgWrongPost)
          else
            var fileData := FileData.GetFileData(FileMeta(site, postId));
            if !FileData.HasFile(FileMeta(site, postId)) then Die(MsgNoFile)
            else
              var fileId := Lookup(fileData, "file_id");
              if !Empty(fileId) then
                match onDisk(fileId)
                case None => Die(MsgNotOnServer)
                case Some(path) => Stream(path)
              else Redirect(Lookup(fileData, "url"))
  }

  /** `handle_download_request` as written: the token is checked and left
      in place. */
  function HandleDownloadRequest(site: Site, wp: Wp, now: int, get: DownloadGet,
                                 onDisk: Value -> Option<string>): (r: (Site, Served))
    ensures r.1 == Serve(site, wp, now, get, onDisk)
  {
    (site, Serve(site, wp, now, get, onDisk))
  }

  /** The refusals of `handle_download_request`, each in force only once
      the earlier checks have passed. */
  lemma ServeRejectsInOrder(site: Site, wp: Wp, now: int, get: DownloadGet, onDisk: Value -> Option<string>)
    requires IsDownloadLink(wp, get)
    ensures get.postId.None? || get.token.None? ==> Serve(site, wp, now, get, onDisk) == Die(MsgMissingParams)
    ensures get.postId.Some? && get.token.Some? ==>
      var postId := IntVal(Str(get.postId.value));
      var token := wp.sanitizeText(get.token.value);
      var r := Serve(site, wp, now, get, onDisk);
      && (postId <= 0 || EmptyString(token) ==> r == Die(MsgInvalidRequest))
      && (postId > 0 && !EmptyString(token) ==>
            && (Transient(site, token, now).None? ==> r == Die(MsgLinkExpired))
            && (Transient(site, token, now).Some? && Transient(site, token, now).value != postId ==> r == Die(MsgWrongPost))
            && (Transient(site, token, now) == Some(postId) && !FileData.HasFile(FileMeta(site, postId)) ==> r == Die(MsgNoFile)))
  {
  }

  /** A delivery: the file was sent or the browser sent on to it. */
  predicate Delivered(s: Served) {
    s.Stream? || s.Redirect?
  }

  /** The request a download link makes. */
  function LinkRequest(url: DownloadUrl): DownloadGet {
    DownloadGet(Some(url.wprlDownload), Some(url.postId), Some(url.token))
  }

  /** A link for a post that has a file and a live grant passes every
      check of `handle_download_request`. */
  lemma GrantedLinkServes(site: Site, wp: Wp, now: int, postId: int, token: string,
                          onDisk: Value -> Option<string>)
    requires postId > 0 && FileData.HasFile(FileMeta(site, postId))
    requires Transient(site, token, now) == Some(postId)
    requires wp.sanitizeText("1") == "1" && wp.sanitizeText(token) == token && !EmptyString(token)
    ensures var served := Serve(site, wp, now, LinkRequest(DownloadUrl("1", token, Decimal(postId))), onDisk);
      Delivered(served) || served == Die(MsgNotOnServer)
  {
    DecimalRoundTrip(postId);
  }

  /** A link whose grant is gone or out of date is refused as expired. */
  lemma LapsedLinkRefused(site: Site, wp: Wp, now: int, postId: int, token: string,
                          onDisk: Value -> Option<string>)
    requires postId > 0 && Transient(site, token, now).None?
    requires wp.sanitizeText("1") == "1" && wp.sanitizeText(token) == token && !EmptyString(token)
    ensures Serve(site, wp, now, LinkRequest(DownloadUrl("1", token, Decimal(postId))), onDisk) == Die(MsgLinkExpired)
  {
    DecimalRoundTrip(postId);
  }

  /** The link a successful submission for a positive post id hands out
      opens the file for the whole of the following 24 hours (unless the
      attached file has gone from the disk), and is refused after that. */
  lemma IssuedLinkLifetime(site: Site, wp: Wp, env: Env, post: FormPost, token: string,
                           later: int, onDisk: Value -> Option<string>)
    requires Valid(site)
    requires SubmitDownloadForm(site, wp, env, post, token).reply.JsonSuccess?
    requires post.postId.Some? && PostIdOf(post) > 0
    requires env.now <= later
    requires wp.sanitizeText("1") == "1" && wp.sanitizeText(token) == token && !EmptyString(token)
    ensures var r := SubmitDownloadForm(site, wp, env, post, token);
      var served := Serve(r.site, wp, later, LinkRequest(r.reply.downloadUrl), onDisk);
      && (later <= env.now + TokenLifetime ==> Delivered(served) || served == Die(MsgNotOnServer))
      && (later > env.now + TokenLifetime ==> served == Die(MsgLinkExpired))
  {
    SubmitAccepts(site, wp, env, post, token);
    var postId := PostIdOf(post);
    FileMeansPost(site, postId);
    ValidMeta(site, postId);
    AcceptGrants(site, env, postId, NameOf(wp, post), EmailOf(wp, post), MobileOf(wp, post),
                 token, Some(MsgThanks), MsgSubmitDb, later);
    AcceptCounts(site, env, postId, NameOf(wp, post), EmailOf(wp, post), MobileOf(wp, post),
                 token, Some(MsgThanks), MsgSubmitDb);
    var r := SubmitDownloadForm(site, wp, env, post, token);
    if later <= env.now + TokenLifetime {
      GrantedLinkServes(r.site, wp, later, postId, token, onDisk);
    } else {
      LapsedLinkRefused(r.site, wp, later, postId, token, onDisk);
    }
  }

  /** `process_download` and `handle_download_request` agree: the link the
      first one returns passes every token and post check of the second. */
  lemma ProcessedLinkServes(site: Site, wp: Wp, now: int, post: ProcessPost, onDisk: Value -> Option<string>)
    requires Valid(site)
    requires ProcessDownload(site, wp, now, post).JsonSuccess?
    requires wp.sanitizeText("1") == "1"
    requires var t := ProcessDownload(site, wp, now, post).downloadUrl.token; wp.sanitizeText(t) == t
    requires Transient(site, ProcessDownload(site, wp, now, post).downloadUrl.token, now).value > 0
    ensures var url := ProcessDownload(site, wp, now, post).downloadUrl;
      var served := Serve(site, wp, now, LinkRequest(url), onDisk);
      Delivered(served) || served == Die(MsgNotOnServer)
  {
    var url := ProcessDownload(site, wp, now, post).downloadUrl;
    var postId := Transient(site, url.token, now).value;
    FileMeansPost(site, postId);
    GrantedLinkServes(site, wp, now, postId, url.token, onDisk);
  }

  /** As written, a token granted to a negative post id (which only
      `submit_download_form` stores) still gets a link from
      `process_download`, since the file is looked up under the id's
      `absint`; `handle_download_request` refuses that link. */
  lemma ProcessedNegativeLinkRefused(site: Site, wp: Wp, now: int, post: ProcessPost,
                                     onDisk: Value -> Option<string>)
    requires ProcessDownload(site, wp, now, post).JsonSuccess?
    requires wp.sanitizeText("1") == "1"
    requires Transient(site, ProcessDownload(site, wp, now, post).downloadUrl.token, now).value < 0
    ensures var url := ProcessDownload(site, wp, now, post).downloadUrl;
      Serve(site, wp, now, LinkRequest(url), onDisk) == Die(MsgInvalidRequest)
  {
    var url := ProcessDownload(site, wp, now, post).downloadUrl;
    DecimalRoundTrip(Transient(site, url.token, now).value);
  }

  /** A link naming a negative post id is refused before its token is
      looked at. */
  lemma NegativeLinkRefused(site: Site, wp: Wp, now: int, token: string, postId: int,
                            onDisk: Value -> Option<string>)
    requires postId < 0 && wp.sanitizeText("1") == "1"
    ensures Serve(site, wp, now, LinkRequest(DownloadUrl("1", token, Decimal(postId))), onDisk)
         == Die(MsgInvalidRequest)
  {
    DecimalRoundTrip(postId);
  }

  /** As written, `submit_download_form` has no check that the post id is
      positive: a form whose post id is the negative of a post with a file
      passes every check, counts a download of that post and stores a row
      and a token under the negative id, and the link it answers with is
      refused by `handle_download_request`. */
  lemma NegativePostIdLinkRefused(site: Site, wp: Wp, env: Env, post: FormPost, token: string,
                                  later: int, onDisk: Value -> Option<string>)
    requires PassesChecks(site, wp, post) && !env.dbFails && PostIdOf(post) < 0
    requires FileData.WellFormed(FileMeta(site, PostIdOf(post)))
    requires wp.sanitizeText("1") == "1"
    ensures var r := SubmitDownloadForm(site, wp, env, post, token);
      && r.reply.JsonSuccess?
      && r.site.table.rows[|site.table.rows|].postId == PostIdOf(post)
      && FileData.DownloadCount(FileMeta(r.site, 0 - PostIdOf(post)))
           == FileData.DownloadCount(FileMeta(site, 0 - PostIdOf(post))) + 1
      && Serve(r.site, wp, later, LinkRequest(r.reply.downloadUrl), onDisk) == Die(MsgInvalidRequest)
  {
    var postId, name, email, mobile := PostIdOf(post), NameOf(wp, post), EmailOf(wp, post), MobileOf(wp, post);
    SubmitAccepts(site, wp, env, post, token);
    var r := Accept(site, env, postId, name, email, mobile, token, Some(MsgThanks), MsgSubmitDb);
    assert SubmitDownloadForm(site, wp, env, post, token) == r;
    AcceptRecords(site, env, postId, name, email, mobile, token, Some(MsgThanks), MsgSubmitDb);
    AcceptCounts(site, env, postId, name, email, mobile, token, Some(MsgThanks), MsgSubmitDb);
    MetaIgnoresSign(site, postId);
    MetaIgnoresSign(r.site, postId);
    NegativeLinkRefused(r.site, wp, later, token, postId, onDisk);
  }

  /** `submit_download_form` with the post-id check that
      `direct_download_for_logged_users` makes: a post id that is not
      positive is refused right after the required fields are found. */
  function SubmitGuarded(site: Site, wp: Wp, env: Env, post: FormPost, token: string): (r: Step)
    ensures !r.reply.JsonSuccess? ==> r.site == site
    ensures Complete(post) && PostIdOf(post) <= 0 ==> r == Step(site, JsonError(MsgBadPost))
  {
    if Complete(post) && PostIdOf(post) <= 0 then Step(site, JsonError(MsgBadPost))
    else SubmitDownloadForm(site, wp, env, post, token)
  }

  /** On a positive post id the guarded handler is the written one. */
  lemma GuardedMatchesWritten(site: Site, wp: Wp, env: Env, post: FormPost, token: string)
    requires post.postId.Some? ==> PostIdOf(post) > 0
    ensures SubmitGuarded(site, wp, env, post, token) == SubmitDownloadForm(site, wp, env, post, token)
  {
  }

  /** With the guard, every link a submission hands out opens the file for
      the following 24 hours (unless the attached file has gone from the
      disk), and is refused after that. */
  lemma GuardedLinkLifetime(site: Site, wp: Wp, env: Env, post: FormPost, token: string,
                            later: int, onDisk: Value -> Option<string>)
    requires Valid(site)
    requires SubmitGuarded(site, wp, env, post, token).reply.JsonSuccess?
    requires env.now <= later
    requires wp.sanitizeText("1") == "1" && wp.sanitizeText(token) == token && !EmptyString(token)
    ensures var r := SubmitGuarded(site, wp, env, post, token);
      var served := Serve(r.site, wp, later, LinkRequest(r.reply.downloadUrl), onDisk);
      && (later <= env.now + TokenLifetime ==> Delivered(served) || served == Die(MsgNotOnServer))
      && (later > env.now + TokenLifetime ==> served == Die(MsgLinkExpired))
  {
    SubmitAccepts(site, wp, env, post, token);
    assert SubmitGuarded(site, wp, env, post, token) == SubmitDownloadForm(site, wp, env, post, token);
    IssuedLinkLifetime(site, wp, env, post, token, later, onDisk);
  }

  /** As written, redeeming a link does not use it up: the same link works
      again straight away. */
  lemma LinkWorksTwice(site: Site, wp: Wp, now: int, get: DownloadGet, onDisk: Value -> Option<string>)
    requires Delivered(HandleDownloadRequest(site, wp, now, get, onDisk).1)
    ensures var first := HandleDownloadRequest(site, wp, now, get, onDisk);
      Delivered(HandleDownloadRequest(first.0, wp, now, get, onDisk).1)
  {
  }

  /** `handle_download_request` with the token deleted once the file has
      been handed out, as the comment in `process_download` says it is. */
  function RedeemOnce(site: Site, wp: Wp, now: int, get: DownloadGet,
                      onDisk: Value -> Option<string>): (r: (Site, Served))
    ensures r.1 == Serve(site, wp, now, get, onDisk)
    ensures Delivered(r.1) ==> get.token.Some? && wp.sanitizeText(get.token.value) !in r.0.grants
    ensures !Delivered(r.1) ==> r.0 == site
  {
    var served := Serve(site, wp, now, get, onDisk);
    if Delivered(served) then (site.(grants := site.grants - {wp.sanitizeText(get.token.value)}), served)
    else (site, served)
  }

  /** With the correction a link opens the file once; the second use is
      refused as expired. */
  lemma RedeemOnceIsSingleUse(site: Site, wp: Wp, now: int, later: int, get: DownloadGet,
                              onDisk: Value -> Option<string>)
    requires Delivered(RedeemOnce(site, wp, now, get, onDisk).1)
    ensures RedeemOnce(RedeemOnce(site, wp, now, get, onDisk).0, wp, later, get, onDisk).1 == Die(MsgLinkExpired)
  {
  }

  // ---------------------------------------------------------------------
  // direct_download_for_logged_users
  // ---------------------------------------------------------------------

  /** The visitor as WordPress knows them; the phone fields are the user
      meta `billing_phone` and `phone` (`''` when unset). */
  datatype User = User(loggedIn: bool, displayName: string, email: string, billingPhone: string, phone: string)

  datatype DirectPost = DirectPost(nonceOk: bool, postId: Option<string>)

  /** The mobile number stored with a direct download. */
  function DirectMobile(user: User): (m: string)
    ensures !EmptyString(m)
    ensures !EmptyString(user.billingPhone) ==> m == user.billingPhone
    ensures EmptyString(user.billingPhone) && !EmptyString(user.phone) ==> m == user.phone
  {
    if !EmptyString(user.billingPhone) then user.billingPhone
    else if !EmptyString(user.phone) then user.phone
    else NotProvided
  }

  /** `direct_download_for_logged_users`. */
  function DirectDownload(site: Site, env: Env, user: User, post: DirectPost, token: string): (r: Step)
    ensures !r.reply.JsonSuccess? ==> r.site == site
    ensures !user.loggedIn ==> r.reply == JsonError(MsgNotLoggedIn)
    ensures user.loggedIn && !post.nonceOk ==> r.reply == NonceFailed
  {
    if !user.loggedIn then Step(site, JsonError(MsgNotLoggedIn))
    else if !post.nonceOk then Step(site, NonceFailed)
    else if post.postId.None? then Step(site, JsonError(MsgPostRequired))
    else
      var postId := IntVal(Str(post.postId.value));
      if postId <= 0 then Step(site, JsonError(MsgBadPost))
      else if !FileData.HasFile(FileMeta(site, postId)) then Step(site, JsonError(MsgNoFile))
      else Accept(site, env, postId, user.displayName, user.email, DirectMobile(user), token, None, MsgDirectDb)
  }

  /** A direct download keeps the site valid. */
  lemma DirectKeepsValid(site: Site, env: Env, user: User, post: DirectPost, token: string)
    requires Valid(site)
    ensures Valid(DirectDownload(site, env, user, post, token).site)
  {
    if user.loggedIn && post.nonceOk && post.postId.Some? && IntVal(Str(post.postId.value)) > 0 {
      AcceptKeepsValid(site, env, IntVal(Str(post.postId.value)), user.displayName, user.email,
                       DirectMobile(user), token, None, MsgDirectDb);
    }
  }

  /** A logged-in user's direct download of a post id that is not positive
      is refused, whatever the post. */
  lemma DirectRejectsBadPost(site: Site, env: Env, user: User, post: DirectPost, token: string)
    requires user.loggedIn && post.nonceOk && post.postId.Some?
    requires IntVal(Str(post.postId.value)) <= 0
    ensures DirectDownload(site, env, user, post, token) == Step(site, JsonError(MsgBadPost))
  {
  }

  /** A direct download that succeeds stores a row with a non-empty mobile
      number and issues a token for the post. */
  lemma DirectSuccessRecordsUser(site: Site, env: Env, user: User, post: DirectPost, token: string)
    requires DirectDownload(site, env, user, post, token).reply.JsonSuccess?
    ensures var r := DirectDownload(site, env, user, post, token);
      && post.postId.Some?
      && |r.site.table.rows| == |site.table.rows| + 1
      && var row := r.site.table.rows[|site.table.rows|];
         && row.userName == user.displayName
         && row.userMobile == DirectMobile(user)
         && !EmptyString(row.userMobile)
         && Transient(r.site, token, env.now) == Some(IntVal(Str(post.postId.value)))
  {
    var postId := IntVal(Str(post.postId.value));
    assert DirectDownload(site, env, user, post, token)
        == Accept(site, env, postId, user.displayName, user.email, DirectMobile(user), token, None, MsgDirectDb);
    AcceptRecords(site, env, postId, user.displayName, user.email, DirectMobile(user), token, None, MsgDirectDb);
    AcceptGrants(site, env, postId, user.displayName, user.email, DirectMobile(user), token, None, MsgDirectDb, env.now);
  }

  // ---------------------------------------------------------------------
  // Submissions against the field settings
  // ---------------------------------------------------------------------

  /** `submit_download_form` if it asked the field settings which fields are
      required: a field that is not required may be left out or blank, and
      a mobile number is checked only when one is given. */
  function SubmitPerSettings(site: Site, wp: Wp, env: Env, post: FormPost, token: string,
                             option: Option<PhpArray>): (r: Step)
    ensures !r.reply.JsonSuccess? ==> r.site == site
  {
    SubmitRequiring(site, wp, env, post, token, Settings.IsFieldRequired(option, "name_field"),
                    Settings.IsFieldRequired(option, "phone_field"), Settings.IsFieldRequired(option, "email_field"))
  }

  /** The same handler once the settings have said which of name, mobile
      number and e-mail address are required. */
  function SubmitRequiring(site: Site, wp: Wp, env: Env, post: FormPost, token: string,
                           needName: bool, needMobile: bool, needEmail: bool): (r: Step)
    ensures !r.reply.JsonSuccess? ==> r.site == site
  {
    if !post.nonceOk then Step(site, NonceFailed)
    else if post.postId.None? then Step(site, JsonError(MsgMissing))
    else
      var postId := PostIdOf(post);
      var name := if post.userName.Some? then wp.sanitizeText(post.userName.value) else "";
      var email := EmailOf(wp, post);
      var mobile := if post.userMobile.Some? then wp.sanitizeText(post.userMobile.value) else "";
      if || (needName && EmptyString(name))
         || (needMobile && EmptyString(mobile))
         || (needEmail && EmptyString(email))
      then Step(site, JsonError(MsgFillRequired))
      else Screen(site, wp, env, postId, name, email, mobile, token)
  }

  /** The settings-aware handler keeps the site valid. */
  lemma PerSettingsKeepsValid(site: Site, wp: Wp, env: Env, post: FormPost, token: string,
                              option: Option<PhpArray>)
    requires Valid(site)
    ensures Valid(SubmitPerSettings(site, wp, env, post, token, option).site)
  {
    RequiringKeepsValid(site, wp, env, post, token, Settings.IsFieldRequired(option, "name_field"),
                        Settings.IsFieldRequired(option, "phone_field"), Settings.IsFieldRequired(option, "email_field"));
  }

  /** Whatever fields are required, the corrected handler keeps the site
      valid. */
  lemma RequiringKeepsValid(site: Site, wp: Wp, env: Env, post: FormPost, token: string,
                            needName: bool, needMobile: bool, needEmail: bool)
    requires Valid(site)
    ensures Valid(SubmitRequiring(site, wp, env, post, token, needName, needMobile, needEmail).site)
  {
    if post.nonceOk && post.postId.Some? {
      var name := if post.userName.Some? then wp.sanitizeText(post.userName.value) else "";
      var mobile := if post.userMobile.Some? then wp.sanitizeText(post.userMobile.value) else "";
      ScreenKeepsValid(site, wp, env, PostIdOf(post), name, EmailOf(wp, post), mobile, token);
    }
  }

  /** The form as rendered when the phone field is switched off: no mobile
      number is sent. */
  predicate WithoutMobile(post: FormPost) {
    post.nonceOk && post.postId.Some? && post.userName.Some? && post.userMobile.None?
  }

  /** As written, a form whose phone field the settings switched off can
      never be submitted: the missing mobile number is always refused. */
  lemma DisabledPhoneBlocksSubmission(site: Site, wp: Wp, env: Env, post: FormPost, token: string)
    requires WithoutMobile(post)
    ensures SubmitDownloadForm(site, wp, env, post, token).reply == JsonError(MsgMissing)
  {
  }

  /** With the settings consulted, the same form goes through once its
      other fields are in order. */
  lemma DisabledPhoneAccepted(site: Site, wp: Wp, env: Env, post: FormPost, token: string,
                              option: Option<PhpArray>)
    requires WithoutMobile(post) && !env.dbFails
    requires !Settings.IsFieldRequired(option, "phone_field")
    requires !(Settings.IsFieldRequired(option, "name_field") && EmptyString(NameOf(wp, post)))
    requires !(Settings.IsFieldRequired(option, "email_field") && EmptyString(EmailOf(wp, post)))
    requires EmptyString(EmailOf(wp, post)) || wp.isEmail(EmailOf(wp, post))
    requires FileData.HasFile(FileMeta(site, PostIdOf(post)))
    ensures SubmitPerSettings(site, wp, env, post, token, option).reply.JsonSuccess?
  {
    var postId, name, email := PostIdOf(post), NameOf(wp, post), EmailOf(wp, post);
    assert EmptyString("");
    assert SubmitPerSettings(site, wp, env, post, token, option) == Screen(site, wp, env, postId, name, email, "", token);
    assert Screen(site, wp, env, postId, name, email, "", token)
        == Accept(site, env, postId, name, email, "", token, Some(MsgThanks), MsgSubmitDb);
  }

  /** The required fields as the written handler hard-codes them: name and
      mobile number, not the e-mail address. */
  predicate RequiresNameAndMobile(option: Option<PhpArray>) {
    && Settings.IsFieldRequired(option, "name_field")
    && Settings.IsFieldRequired(option, "phone_field")
    && !Settings.IsFieldRequired(option, "email_field")
  }

  /** Under settings that require exactly the name and the mobile number the
      corrected handler behaves as the written one on every complete
      submission. */
  lemma PerSettingsMatchesWritten(site: Site, wp: Wp, env: Env, post: FormPost, token: string,
                                  option: Option<PhpArray>)
    requires Complete(post) && RequiresNameAndMobile(option)
    ensures SubmitPerSettings(site, wp, env, post, token, option) == SubmitDownloadForm(site, wp, env, post, token)
  {
    NameAndMobileMatchWritten(site, wp, env, post, token);
  }

  /** Requiring exactly the name and the mobile number is what the written
      handler does on every complete submission. */
  lemma NameAndMobileMatchWritten(site: Site, wp: Wp, env: Env, post: FormPost, token: string)
    requires Complete(post)
    ensures SubmitRequiring(site, wp, env, post, token, true, true, false) == SubmitDownloadForm(site, wp, env, post, token)
  {
    var name := NameOf(wp, post);
    var mobile := MobileOf(wp, post);
    if EmptyString(name) || EmptyString(mobile) {
      assert SubmitRequiring(site, wp, env, post, token, true, true, false) == Step(site, JsonError(MsgFillRequired));
    } else {
      var screened := Screen(site, wp, env, PostIdOf(post), name, EmailOf(wp, post), mobile, token);
      assert SubmitRequiring(site, wp, env, post, token, true, true, false) == screened;
    }
  }

  /** The default settings are such settings, so with no settings saved the
      two handlers agree. */
  lemma PerSettingsMatchesDefaults(site: Site, wp: Wp, env: Env, post: FormPost, token: string)
    requires Complete(post)
    ensures SubmitPerSettings(site, wp, env, post, token, None) == SubmitDownloadForm(site, wp, env, post, token)
  {
    Settings.DefaultsAsDocumented();
    PerSettingsMatchesWritten(site, wp, env, post, token, None);
  }
}
