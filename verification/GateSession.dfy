/** The shared gate as one browser session knows it (`shared_gate.py`): when the password was typed,
which password that was, and when a request was last seen. The deployment is in shared-gate mode.
Times are whole microseconds. */
module GateSession {
  import opened Outcomes

  const SECOND := 1_000_000

  /** `credential_version` is a keyed digest of the configured password: one version a password. */
  type Version = nat

  /** A time stamp as a session keeps it. Something unreadable is not a time. */
  datatype Mark = Absent | Garbled | At(moment: int)

  /** What the deployment configures: the password, and the two limits. */
  datatype Door = Door(configured: Option<Version>, sessionLimit: int, idleLimit: int)

  datatype Gate = Gate(passedAt: Mark, lastSeen: Mark, credential: Option<Version>)

  const SHUT := Gate(Absent, Absent, None)

  /** `lastSeen` lags the latest request by less than this. */
  const RESOLUTION := 300 * SECOND

  predicate CredentialIsCurrent(g: Gate, door: Door) {
    door.configured.Some? && g.credential == door.configured
  }

  predicate OpenedUnderAnother(g: Gate, door: Door) {
    g.passedAt != Absent && !CredentialIsCurrent(g, door)
  }

  predicate HasPassed(g: Gate, door: Door, now: int) {
    && CredentialIsCurrent(g, door)
    && g.passedAt.At? && now - g.passedAt.moment < door.sessionLimit
    && match g.lastSeen
       case Absent => now - g.passedAt.moment < door.idleLimit
       case Garbled => false
       case At(seen) => now - seen < door.idleLimit
  }

  /** `note_activity`: a stamp five minutes old or unreadable becomes the present. */
  function Noted(g: Gate, now: int): Gate {
    if !g.lastSeen.At? || now - g.lastSeen.moment >= RESOLUTION then g.(lastSeen := At(now)) else g
  }

  /** A pass, as it goes from one session to the next: both halves or neither. */
  datatype Pass = Pass(passedAt: Mark, credential: Option<Version>)

  function CurrentPass(g: Gate): Pass { Pass(g.passedAt, g.credential) }

  /** `open_gate`: afresh after the password, or carried across a change of persona. */
  function Opened(door: Door, carried: Option<Pass>, now: int): Gate {
    match carried
    case None => Gate(At(now), At(now), door.configured)
    case Some(pass) => Gate(if pass.passedAt == Absent then At(now) else pass.passedAt, At(now), pass.credential)
  }

  /** How long a pass lasts, exactly: typed at `typed` and last carried across at `carriedAt`, it is good
      under the password it was typed under, inside the absolute limit since it was typed and the idle
      limit since it was carried. */
  lemma CarriedPassOpensExactly(door: Door, typed: int, carriedAt: int, later: Door, now: int)
    ensures var first := Opened(door, None, typed);
            var carried := Opened(later, Some(CurrentPass(first)), carriedAt);
            HasPassed(carried, later, now) <==>
              later.configured.Some? && later.configured == door.configured
              && now - typed < later.sessionLimit && now - carriedAt < later.idleLimit
  {
  }
}
