/** The credential decision made when the calendar client is built: use the
    stored credential, refresh it, or run the interactive authorization
    flow, and write the credentials file when the credential changed. */
module Credentials {
  import opened Options

  /** An abstract credential. `token` stands for the access token; the three
      flags are what the decision reads (`valid`, `expired`, and whether
      `refresh_token` is set). */
  datatype Credential = Credential(token: string, valid: bool, expired: bool, hasRefreshToken: bool)

  /** What the refresh call does: it succeeds with a new access token, or it
      raises `RefreshError`. */
  datatype RefreshOutcome = RefreshSucceeds(newToken: string) | RefreshFails

  /** The credential the service is built with, or the failure of the
      interactive flow, which aborts the construction. */
  datatype Session = Authorized(creds: Credential) | AuthFailed

  /** How often each side effect happened during one decision. */
  datatype Actions = Actions(refreshCalls: nat, warnings: nat, flowRuns: nat, writes: nat)

  const NoActions := Actions(0, 0, 0, 0)

  /** A successful refresh replaces the access token in place and leaves the
      credential valid and unexpired. */
  function Refreshed(c: Credential, newToken: string): Credential {
    c.(token := newToken, valid := true, expired := false)
  }

  /** The stored credential can be used as it is. */
  predicate UsableAsIs(c: Option<Credential>) {
    c.Some? && c.value.valid
  }

  /** The stored credential is not usable but a refresh is attempted. */
  predicate Refreshable(c: Option<Credential>) {
    c.Some? && !c.value.valid && c.value.expired && c.value.hasRefreshToken
  }

  /** The credentials file: `None` while it does not exist. */
  class CredentialStore {
    var stored: Option<Credential>

    constructor (stored: Option<Credential>)
      ensures this.stored == stored
    {
      this.stored := stored;
    }

    /**
     * Loads the stored credential; when it is missing or not valid, tries a
     * refresh if it is expired and has a refresh token, falls back to the
     * interactive flow (`flow`, `None` when the flow raises) when there was
     * no successful refresh, and writes the resulting credential.
     */
    method BuildService(refresh: RefreshOutcome, flow: Option<Credential>) returns (session: Session, acts: Actions)
      modifies this
      // A valid stored credential is used without refresh, flow or write.
      ensures UsableAsIs(old(stored)) ==>
        acts == NoActions && session == Authorized(old(stored).value) && stored == old(stored)
      // A successful refresh is written, and no flow runs.
      ensures Refreshable(old(stored)) && refresh.RefreshSucceeds? ==>
        && acts == Actions(1, 0, 0, 1)
        && session == Authorized(Refreshed(old(stored).value, refresh.newToken))
        && stored == Some(session.creds)
      // A failed refresh is logged and followed by exactly one flow.
      ensures Refreshable(old(stored)) && refresh.RefreshFails? ==>
        acts.refreshCalls == 1 && acts.warnings == 1 && acts.flowRuns == 1
      // No stored credential, or an invalid one that cannot be refreshed:
      // no refresh, exactly one flow.
      ensures !UsableAsIs(old(stored)) && !Refreshable(old(stored)) ==>
        acts.refreshCalls == 0 && acts.warnings == 0 && acts.flowRuns == 1
      // Whenever the flow runs, its credential is written, or, when it
      // raises, the file is left as it was.
      ensures acts.flowRuns == 1 && flow.Some? ==>
        acts.writes == 1 && session == Authorized(flow.value) && stored == flow
      ensures acts.flowRuns == 1 && flow.None? ==>
        acts.writes == 0 && session == AuthFailed && stored == old(stored)
      // The file always holds the credential in use.
      ensures session.Authorized? ==> stored == Some(session.creds)
      // The credential in use is valid when the flow issues valid credentials.
      ensures session.Authorized? && (flow.Some? ==> flow.value.valid) ==> session.creds.valid
    {
      var creds := stored;
      acts := NoActions;
      if creds.None? || !creds.value.valid {
        var ok := false;
        if creds.Some? && creds.value.expired && creds.value.hasRefreshToken {
          acts := acts.(refreshCalls := acts.refreshCalls + 1);
          match refresh
          case RefreshSucceeds(t) =>
            creds := Some(Refreshed(creds.value, t));
            ok := true;
          case RefreshFails =>
            acts := acts.(warnings := acts.warnings + 1);
        }
        if !ok {
          acts := acts.(flowRuns := acts.flowRuns + 1);
          if flow.None? {
            session := AuthFailed;
            return;
          }
          creds := flow;
        }
        stored := creds;
        acts := acts.(writes := acts.writes + 1);
      }
      session := Authorized(creds.value);
    }
  }

  /** Two consecutive starts: once the first one has authorized with a valid
      credential, the second uses the stored one and does nothing else. */
  method StartTwice(initial: Option<Credential>, refresh1: RefreshOutcome, flow1: Option<Credential>,
                    refresh2: RefreshOutcome, flow2: Option<Credential>)
    returns (first: Session, second: Session, acts2: Actions)
    requires flow1.Some? ==> flow1.value.valid
    ensures first.Authorized? ==> second == first && acts2 == NoActions
    ensures first.AuthFailed? ==> initial.None? || !initial.value.valid
  {
    var store := new CredentialStore(initial);
    var acts1;
    first, acts1 := store.BuildService(refresh1, flow1);
    second, acts2 := store.BuildService(refresh2, flow2);
  }
}
