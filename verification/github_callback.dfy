/** The GitHub App installation callback of
    app/api/connect/github/callback/route.ts as a pure decision function. Its
    inputs are the `installation_id` query parameter, the session user, the
    profiles and mailboxes tables, what listing the installation's
    repositories gave, and whether the mailbox write fails; its output is the
    redirect and the mailboxes table as the request leaves it. */
module GithubCallback {
  import opened Wrappers
  import opened Js
  import opened Schema

  /** What `listRepositories(installationId)` gave: it threw, or it returned a
      list of this many repositories. */
  datatype Listing = ListingThrew | Listed(repositoryCount: nat)

  /** The value of the `githubConnectResult` query flag. */
  datatype ConnectResult = ConnectSuccess | ConnectError

  /** The redirect targets: `/login`, `/mailboxes`, and
      `/mailboxes/{slug}/settings/integrations?githubConnectResult={result}`. */
  datatype Redirect = ToLogin | ToMailboxes | ToIntegrations(slug: string, result: ConnectResult)

  /** The success redirect. */
  predicate IsSuccess(r: Redirect) {
    r.ToIntegrations? && r.result == ConnectSuccess
  }

  /** The redirect and the mailboxes table after the request. */
  datatype CallbackOutcome = CallbackOutcome(redirect: Redirect, mailboxes: seq<Mailbox>)

  /** The path of a redirect, relative to the application's base URL. */
  function RedirectPath(r: Redirect): string {
    match r
    case ToLogin => "/login"
    case ToMailboxes => "/mailboxes"
    case ToIntegrations(slug, ConnectSuccess) =>
      "/mailboxes/" + slug + "/settings/integrations?githubConnectResult=success"
    case ToIntegrations(slug, ConnectError) =>
      "/mailboxes/" + slug + "/settings/integrations?githubConnectResult=error"
  }

  /** The mailbox with the given slug, if any (`getMailboxBySlug`; slugs are
      unique, so the first match is the only one). */
  function MailboxBySlug(mailboxes: seq<Mailbox>, slug: string): (r: Option<Mailbox>)
    ensures r.Some? ==> r.value in mailboxes && r.value.slug == slug
    ensures r.None? ==> forall i :: 0 <= i < |mailboxes| ==> mailboxes[i].slug != slug
  {
    if mailboxes == [] then None
    else if mailboxes[0].slug == slug then Some(mailboxes[0])
    else MailboxBySlug(mailboxes[1..], slug)
  }

  /** `UPDATE mailboxes SET githubInstallationId = installationId WHERE id = mailboxId`. */
  function SetInstallation(mailboxes: seq<Mailbox>, mailboxId: int, installationId: string): (r: seq<Mailbox>)
    ensures |r| == |mailboxes|
    ensures forall i :: 0 <= i < |mailboxes| && mailboxes[i].id == mailboxId ==>
      r[i] == mailboxes[i].(githubInstallationId := Some(installationId))
    ensures forall i :: 0 <= i < |mailboxes| && mailboxes[i].id != mailboxId ==> r[i] == mailboxes[i]
  {
    seq(|mailboxes|, i requires 0 <= i < |mailboxes| =>
      if mailboxes[i].id == mailboxId then mailboxes[i].(githubInstallationId := Some(installationId))
      else mailboxes[i])
  }

  /** The last mailbox slug stored in the user's profile, if any. */
  function LastMailboxSlug(profiles: Profiles, userId: string): Option<string> {
    var p := ProfileOf(profiles, userId);
    if p.Some? then p.value.lastMailboxSlug else None
  }

  /** `GET`: the seven exits, in order. No session: `/login`. No (or an
      empty) last mailbox slug, or no mailbox with that slug: `/mailboxes`.
      No (or an empty) installation id: the error redirect. Listing throws or
      finds no repository: the error redirect. The write throws: the error
      redirect. Otherwise the installation id is stored on that mailbox and
      the success redirect follows. Only the last exit writes anything. */
  function Callback(installationId: Option<string>, session: Option<AuthUser>, profiles: Profiles,
                    mailboxes: seq<Mailbox>, listing: Listing, writeFails: bool): (r: CallbackOutcome)
    ensures session.None? ==> r == CallbackOutcome(ToLogin, mailboxes)
    ensures r.redirect == ToLogin <==> session.None?
    ensures session.Some? && !Truthy(LastMailboxSlug(profiles, session.value.id)) ==>
      r == CallbackOutcome(ToMailboxes, mailboxes)
    ensures session.Some? && Truthy(LastMailboxSlug(profiles, session.value.id))
            && (forall i :: 0 <= i < |mailboxes| ==> mailboxes[i].slug != LastMailboxSlug(profiles, session.value.id).value) ==>
      r == CallbackOutcome(ToMailboxes, mailboxes)
    ensures session.Some? && Truthy(LastMailboxSlug(profiles, session.value.id))
            && (exists i :: 0 <= i < |mailboxes| && mailboxes[i].slug == LastMailboxSlug(profiles, session.value.id).value) ==>
      r.redirect == ToIntegrations(LastMailboxSlug(profiles, session.value.id).value,
                                   if Truthy(installationId) && listing.Listed? && listing.repositoryCount > 0 && !writeFails
                                   then ConnectSuccess else ConnectError)
    ensures r.redirect.ToIntegrations? ==>
      && session.Some?
      && Truthy(LastMailboxSlug(profiles, session.value.id))
      && r.redirect.slug == LastMailboxSlug(profiles, session.value.id).value
      && exists i :: 0 <= i < |mailboxes| && mailboxes[i].slug == r.redirect.slug
    ensures r.redirect.ToIntegrations? && !Truthy(installationId) ==>
      r.redirect.result == ConnectError && r.mailboxes == mailboxes
    ensures r.redirect.ToIntegrations? && (listing == ListingThrew || listing == Listed(0) || writeFails) ==>
      r.redirect.result == ConnectError && r.mailboxes == mailboxes
    ensures IsSuccess(r.redirect) <==>
      && r.redirect.ToIntegrations?
      && Truthy(installationId)
      && listing.Listed? && listing.repositoryCount > 0
      && !writeFails
    ensures IsSuccess(r.redirect) ==>
      var mailbox := MailboxBySlug(mailboxes, r.redirect.slug).value;
      r.mailboxes == SetInstallation(mailboxes, mailbox.id, installationId.value)
    ensures !IsSuccess(r.redirect) ==> r.mailboxes == mailboxes
  {
    match session
    case None => CallbackOutcome(ToLogin, mailboxes)
    case Some(user) =>
      var slug := LastMailboxSlug(profiles, user.id);
      if !Truthy(slug) then CallbackOutcome(ToMailboxes, mailboxes)
      else
        match MailboxBySlug(mailboxes, slug.value)
        case None => CallbackOutcome(ToMailboxes, mailboxes)
        case Some(mailbox) =>
          var failed := CallbackOutcome(ToIntegrations(mailbox.slug, ConnectError), mailboxes);
          if !Truthy(installationId) then failed
          else
            match listing
            case ListingThrew => failed
            case Listed(count) =>
              if count == 0 then failed
              else if writeFails then failed
              else CallbackOutcome(ToIntegrations(mailbox.slug, ConnectSuccess),
                                   SetInstallation(mailboxes, mailbox.id, installationId.value))
  }

  /** A success redirect is given only once the write has completed: the
      mailbox with the stored slug then holds the installation id, and every
      mailbox with another id is unchanged. */
  lemma SuccessAfterWrite(installationId: Option<string>, session: Option<AuthUser>, profiles: Profiles,
                          mailboxes: seq<Mailbox>, listing: Listing, writeFails: bool)
    requires IsSuccess(Callback(installationId, session, profiles, mailboxes, listing, writeFails).redirect)
    ensures var r := Callback(installationId, session, profiles, mailboxes, listing, writeFails);
      var mailbox := MailboxBySlug(mailboxes, r.redirect.slug).value;
      && installationId.Some?
      && |r.mailboxes| == |mailboxes|
      && (forall i :: 0 <= i < |mailboxes| && mailboxes[i].id == mailbox.id ==>
            r.mailboxes[i].githubInstallationId == installationId
            && r.mailboxes[i].slug == mailboxes[i].slug)
      && (forall i :: 0 <= i < |mailboxes| && mailboxes[i].id != mailbox.id ==> r.mailboxes[i] == mailboxes[i])
      && mailbox in mailboxes
  {
  }

  /** A redirect can be read back from its path: two redirects with the same
      path are the same redirect, as long as no slug contains a `/`. So the
      page reached tells which exit was taken, for which mailbox, and with
      which result flag. */
  lemma RedirectPathInjective(a: Redirect, b: Redirect)
    requires a.ToIntegrations? ==> '/' !in a.slug
    requires b.ToIntegrations? ==> '/' !in b.slug
    requires RedirectPath(a) == RedirectPath(b)
    ensures a == b
  {
    PathShape(a);
    PathShape(b);
    if a.ToIntegrations? && b.ToIntegrations? {
      IntegrationsPathInjective(a.slug, a.result, b.slug, b.result);
    }
  }

  /** The length and second character of a path tell the three kinds of
      redirect apart. */
  lemma PathShape(r: Redirect)
    ensures r.ToLogin? <==> RedirectPath(r)[1] == 'l'
    ensures r.ToMailboxes? <==> |RedirectPath(r)| == 10 && RedirectPath(r)[1] == 'm'
    ensures r.ToIntegrations? <==> |RedirectPath(r)| > 10
  {
  }

  lemma IntegrationsPathInjective(s: string, x: ConnectResult, t: string, y: ConnectResult)
    requires '/' !in s && '/' !in t
    requires RedirectPath(ToIntegrations(s, x)) == RedirectPath(ToIntegrations(t, y))
    ensures s == t && x == y
  {
    var p := RedirectPath(ToIntegrations(s, x));
    var q := RedirectPath(ToIntegrations(t, y));
    var tail := "/settings/integrations?githubConnectResult=";
    var fx := if x == ConnectSuccess then "success" else "error";
    var fy := if y == ConnectSuccess then "success" else "error";
    var ps := "/mailboxes/" + s;
    var qt := "/mailboxes/" + t;
    assert p == ps + (tail + fx);
    assert q == qt + (tail + fy);
    assert (tail + fx)[0] == '/' && (tail + fy)[0] == '/';
    assert p[|ps|] == '/';
    assert q[|qt|] == '/';
    assert |s| == |t|;
    assert forall i :: 0 <= i < |s| ==> s[i] == p[11 + i] && t[i] == q[11 + i];
    assert p[|ps| + |tail|] == fx[0] && q[|qt| + |tail|] == fy[0];
  }
}
