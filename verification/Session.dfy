/**
 * The NSP session handling of `backend/mux.go`: the connect, disconnect and
 * is-connected handlers and the token refresh routine, on the server's shared
 * `nsp` record.
 *
 * The collaborators `getToken` and `revokeToken` are outcomes supplied by the
 * caller; the calls made to them, and every take and release of the server's
 * lock by the refresh routine, are recorded in a ghost history.
 */
module Session {
  import opened Wrappers
  import opened Responses
  import opened Sequences

  /** A step of the history: the lock, a sleep, or a collaborator call and whether it succeeded. */
  datatype Call = Lock | Unlock | Sleep(seconds: int) | Revoke(ok: bool) | GetToken(ok: bool)

  /** What `getToken` brings back: a new token and its lifetime in seconds, or an error. */
  datatype TokenGrant = Granted(accessToken: string, expiresIn: int) | Refused(reason: string)

  /** The outcomes of the two collaborator calls of one renewal. */
  datatype Renewal = Renewal(revoke: Outcome, reacquire: TokenGrant)

  /** Why the refresh routine returned. */
  datatype Exit = NotRenewable | RevokeFailed | ReacquireFailed

  /** A whole run of the refresh routine: its history, the token it leaves and why it stopped. */
  datatype RefreshRun = RefreshRun(calls: seq<Call>, accessToken: string, expiresIn: int, exit: Exit)

  /** How many seconds before expiry the routine renews the token. */
  const SafetyMargin: int := 10

  /**
   * The routine returns once `renewals` has been used up at the latest: the
   * token it reads has no lifetime, or a renewal fails. Time does not end the
   * routine; this is only the hypothesis under which the model terminates.
   */
  predicate RefreshEnds(expiresIn: int, renewals: seq<Renewal>)
    decreases |renewals|
  {
    expiresIn == 0 || (|renewals| > 0 && (!Renewed(renewals[0]) || RefreshEnds(renewals[0].reacquire.expiresIn, renewals[1..])))
  }

  /** Whether both calls of a renewal succeed. */
  predicate Renewed(next: Renewal) {
    next.revoke.Pass? && next.reacquire.Granted?
  }

  /** The calls one renewal makes while holding the lock: revoke, then re-acquire if the revoke succeeded. */
  function Attempt(next: Renewal): seq<Call> {
    if next.revoke.Fail? then [Revoke(false)] else [Revoke(true), GetToken(next.reacquire.Granted?)]
  }

  /**
   * The history of one round of the routine: the read of the lifetime under
   * the lock and, when the lifetime is not 0, the sleep and the renewal under
   * the lock.
   */
  function RoundCalls(expiresIn: int, pending: seq<Renewal>): seq<Call>
    requires expiresIn != 0 ==> pending != []
  {
    if expiresIn == 0 then [Lock, Unlock]
    else [Lock, Unlock, Sleep(expiresIn - SafetyMargin)] + ([Lock] + Attempt(pending[0]) + [Unlock])
  }

  /**
   * `tokenRefreshRoutine`, round by round: read the lifetime under the lock;
   * stop if it is 0; otherwise sleep for the lifetime less the margin, take
   * the lock, revoke, re-acquire, release the lock, and go round again with
   * the new token. A failed revoke or re-acquire releases the lock and stops
   * the routine.
   */
  function Refresh(accessToken: string, expiresIn: int, renewals: seq<Renewal>): RefreshRun
    requires RefreshEnds(expiresIn, renewals)
    decreases |renewals|
  {
    var round := RoundCalls(expiresIn, renewals);
    if expiresIn == 0 then RefreshRun(round, accessToken, expiresIn, NotRenewable)
    else if renewals[0].revoke.Fail? then RefreshRun(round, accessToken, expiresIn, RevokeFailed)
    else if renewals[0].reacquire.Refused? then RefreshRun(round, accessToken, expiresIn, ReacquireFailed)
    else
      var rest := Refresh(renewals[0].reacquire.accessToken, renewals[0].reacquire.expiresIn, renewals[1..]);
      RefreshRun(round + rest.calls, rest.accessToken, rest.expiresIn, rest.exit)
  }

  /**
   * Every run starts by taking the lock and ends by releasing it, and a run
   * that stops for want of a lifetime leaves a zero lifetime behind.
   */
  lemma {:induction false} RefreshBracketed(accessToken: string, expiresIn: int, renewals: seq<Renewal>)
    requires RefreshEnds(expiresIn, renewals)
    ensures var r := Refresh(accessToken, expiresIn, renewals);
      |r.calls| >= 2 && r.calls[0] == Lock && r.calls[|r.calls| - 1] == Unlock &&
      (r.exit == NotRenewable ==> r.expiresIn == 0)
    decreases |renewals|
  {
    if expiresIn != 0 && Renewed(renewals[0]) {
      RefreshBracketed(renewals[0].reacquire.accessToken, renewals[0].reacquire.expiresIn, renewals[1..]);
    }
  }

  /**
   * Replays a history against the lock, starting held or not: the lock is
   * taken only when free and released only when held, each collaborator call
   * is made with it held and each sleep without it. None when a step breaks
   * these rules, otherwise whether the lock is held at the end.
   */
  function LockAfter(calls: seq<Call>, held: bool): Option<bool>
    decreases |calls|
  {
    if calls == [] then Some(held)
    else
      match calls[0]
      case Lock => if held then None else LockAfter(calls[1..], true)
      case Unlock => if held then LockAfter(calls[1..], false) else None
      case Sleep(_) => if held then None else LockAfter(calls[1..], held)
      case Revoke(_) => if held then LockAfter(calls[1..], held) else None
      case GetToken(_) => if held then LockAfter(calls[1..], held) else None
  }

  lemma {:induction false} LockAfterAppend(a: seq<Call>, b: seq<Call>, held: bool)
    ensures LockAfter(a + b, held)
         == match LockAfter(a, held) case None => None case Some(h) => LockAfter(b, h)
    decreases |a|
  {
    if a == [] {
      assert a + b == b;
    } else {
      assert (a + b)[0] == a[0];
      assert (a + b)[1..] == a[1..] + b;
      match a[0]
      case Lock => if !held { LockAfterAppend(a[1..], b, true); }
      case Unlock => if held { LockAfterAppend(a[1..], b, false); }
      case Sleep(_) => if !held { LockAfterAppend(a[1..], b, held); }
      case Revoke(_) => if held { LockAfterAppend(a[1..], b, held); }
      case GetToken(_) => if held { LockAfterAppend(a[1..], b, held); }
    }
  }

  /** One round starts and ends with the lock free and keeps the discipline in between. */
  lemma RoundKeepsLockDiscipline(expiresIn: int, pending: seq<Renewal>)
    requires expiresIn != 0 ==> pending != []
    ensures LockAfter(RoundCalls(expiresIn, pending), false) == Some(false)
  {
    var calls := RoundCalls(expiresIn, pending);
    assert LockAfter([Unlock], true) == Some(false);
    if expiresIn == 0 {
      assert calls[1..] == [Unlock];
    } else {
      var sleep := Sleep(expiresIn - SafetyMargin);
      var attempt := Attempt(pending[0]);
      var critical := [Lock] + attempt + [Unlock];
      if pending[0].revoke.Fail? {
        assert critical[1..] == [Revoke(false), Unlock];
      } else {
        assert critical[1..] == [Revoke(true), GetToken(pending[0].reacquire.Granted?), Unlock];
        assert LockAfter(critical[1..][1..], true) == Some(false);
      }
      assert LockAfter(critical, false) == Some(false);
      assert LockAfter([sleep] + critical, false) == Some(false) by {
        assert ([sleep] + critical)[1..] == critical;
      }
      assert LockAfter([Unlock, sleep] + critical, true) == Some(false) by {
        assert ([Unlock, sleep] + critical)[1..] == [sleep] + critical;
      }
      assert calls == [Lock, Unlock, sleep] + critical;
      assert calls[1..] == [Unlock, sleep] + critical;
    }
  }

  /**
   * The refresh routine keeps the lock discipline on every path: it starts and
   * ends with the lock free, revokes and re-acquires only while holding it,
   * and sleeps only without it.
   */
  lemma {:induction false} RefreshReleasesLock(accessToken: string, expiresIn: int, renewals: seq<Renewal>)
    requires RefreshEnds(expiresIn, renewals)
    ensures LockAfter(Refresh(accessToken, expiresIn, renewals).calls, false) == Some(false)
    decreases |renewals|
  {
    RoundKeepsLockDiscipline(expiresIn, renewals);
    if expiresIn != 0 && Renewed(renewals[0]) {
      var next := renewals[0];
      var rest := Refresh(next.reacquire.accessToken, next.reacquire.expiresIn, renewals[1..]);
      RefreshReleasesLock(next.reacquire.accessToken, next.reacquire.expiresIn, renewals[1..]);
      LockAfterAppend(RoundCalls(expiresIn, renewals), rest.calls, false);
    }
  }

  /** A collaborator call that failed. */
  predicate Failed(c: Call) {
    c == Revoke(false) || c == GetToken(false)
  }

  /** Every re-acquire in a history comes right after a successful revoke. */
  predicate ReacquireFollowsRevoke(calls: seq<Call>) {
    forall i :: 0 <= i < |calls| && calls[i].GetToken? ==> i > 0 && calls[i - 1] == Revoke(true)
  }

  /** A failed call in a history is the last but one step. */
  predicate FailureLastButOne(calls: seq<Call>) {
    forall i :: 0 <= i < |calls| && Failed(calls[i]) ==> i == |calls| - 2
  }

  /** A round that does not renew the token is the last one. */
  lemma RefreshLastRound(accessToken: string, expiresIn: int, renewals: seq<Renewal>)
    requires RefreshEnds(expiresIn, renewals) && !(expiresIn != 0 && Renewed(renewals[0]))
    ensures var run := Refresh(accessToken, expiresIn, renewals);
      run.calls == RoundCalls(expiresIn, renewals) && run.accessToken == accessToken && run.expiresIn == expiresIn &&
      run.exit == (if expiresIn == 0 then NotRenewable else if renewals[0].revoke.Fail? then RevokeFailed else ReacquireFailed)
  {
  }

  /** A round that renews the token is followed by the run from the new token. */
  lemma RefreshNextRound(accessToken: string, expiresIn: int, renewals: seq<Renewal>)
    requires RefreshEnds(expiresIn, renewals) && expiresIn != 0 && Renewed(renewals[0])
    ensures RefreshEnds(renewals[0].reacquire.expiresIn, renewals[1..])
    ensures var rest := Refresh(renewals[0].reacquire.accessToken, renewals[0].reacquire.expiresIn, renewals[1..]);
      Refresh(accessToken, expiresIn, renewals)
        == RefreshRun(RoundCalls(expiresIn, renewals) + rest.calls, rest.accessToken, rest.expiresIn, rest.exit)
  {
  }

  /** A round that renews the token makes the full sequence of calls. */
  lemma RenewingRound(expiresIn: int, pending: seq<Renewal>)
    requires expiresIn != 0 && pending != [] && Renewed(pending[0])
    ensures RoundCalls(expiresIn, pending)
         == [Lock, Unlock, Sleep(expiresIn - SafetyMargin), Lock, Revoke(true), GetToken(true), Unlock]
    ensures forall i :: 0 <= i < 7 ==> !Failed(RoundCalls(expiresIn, pending)[i])
  {
  }

  /** The call order within a round: a re-acquire right after a successful revoke, a failure only last but one. */
  lemma RoundCallOrder(expiresIn: int, pending: seq<Renewal>)
    requires expiresIn != 0 ==> pending != []
    ensures ReacquireFollowsRevoke(RoundCalls(expiresIn, pending))
    ensures FailureLastButOne(RoundCalls(expiresIn, pending))
  {
    if expiresIn != 0 {
      var round := RoundCalls(expiresIn, pending);
      var sleep := Sleep(expiresIn - SafetyMargin);
      if pending[0].revoke.Fail? {
        assert round == [Lock, Unlock, sleep, Lock, Revoke(false), Unlock];
      } else {
        assert round == [Lock, Unlock, sleep, Lock, Revoke(true), GetToken(pending[0].reacquire.Granted?), Unlock];
      }
    }
  }

  /** Every re-acquire of the refresh routine comes right after a successful revoke. */
  lemma {:induction false} RefreshReacquiresAfterRevoke(accessToken: string, expiresIn: int, renewals: seq<Renewal>)
    requires RefreshEnds(expiresIn, renewals)
    ensures ReacquireFollowsRevoke(Refresh(accessToken, expiresIn, renewals).calls)
    decreases |renewals|
  {
    var calls := Refresh(accessToken, expiresIn, renewals).calls;
    RoundCallOrder(expiresIn, renewals);
    if expiresIn != 0 && Renewed(renewals[0]) {
      var next := renewals[0];
      var rest := Refresh(next.reacquire.accessToken, next.reacquire.expiresIn, renewals[1..]);
      RefreshReacquiresAfterRevoke(next.reacquire.accessToken, next.reacquire.expiresIn, renewals[1..]);
      RefreshBracketed(next.reacquire.accessToken, next.reacquire.expiresIn, renewals[1..]);
      RenewingRound(expiresIn, renewals);
      var round := RoundCalls(expiresIn, renewals);
      assert calls == round + rest.calls;
      forall i | 0 <= i < |calls|
        ensures calls[i].GetToken? ==> i > 0 && calls[i - 1] == Revoke(true)
      {
        if i < 7 {
          assert calls[i] == round[i];
          if i > 0 {
            assert calls[i - 1] == round[i - 1];
          }
        } else if i == 7 {
          assert calls[i] == rest.calls[0];
        } else {
          assert calls[i] == rest.calls[i - 7];
          assert calls[i - 1] == rest.calls[i - 8];
        }
      }
    }
  }

  /**
   * A failed revoke or re-acquire is followed only by the release of the
   * lock: the routine makes no call after it.
   */
  lemma {:induction false} RefreshFailureIsLast(accessToken: string, expiresIn: int, renewals: seq<Renewal>)
    requires RefreshEnds(expiresIn, renewals)
    ensures FailureLastButOne(Refresh(accessToken, expiresIn, renewals).calls)
    decreases |renewals|
  {
    var calls := Refresh(accessToken, expiresIn, renewals).calls;
    RoundCallOrder(expiresIn, renewals);
    if expiresIn != 0 && Renewed(renewals[0]) {
      var next := renewals[0];
      var rest := Refresh(next.reacquire.accessToken, next.reacquire.expiresIn, renewals[1..]);
      RefreshFailureIsLast(next.reacquire.accessToken, next.reacquire.expiresIn, renewals[1..]);
      RenewingRound(expiresIn, renewals);
      var round := RoundCalls(expiresIn, renewals);
      assert calls == round + rest.calls;
      forall i | 0 <= i < |calls|
        ensures Failed(calls[i]) ==> i == |calls| - 2
      {
        if i < 7 {
          assert calls[i] == round[i];
          assert !Failed(round[i]);
        } else {
          assert calls[i] == rest.calls[i - 7];
          assert Failed(rest.calls[i - 7]) ==> i - 7 == |rest.calls| - 2;
        }
      }
    }
  }

  /**
   * Why the routine stopped, read off its history: it stops without revoking
   * exactly when it last read a zero lifetime, and otherwise the last call
   * before the final release is the one that failed.
   */
  lemma {:induction false} RefreshExit(accessToken: string, expiresIn: int, renewals: seq<Renewal>)
    requires RefreshEnds(expiresIn, renewals)
    ensures var r := Refresh(accessToken, expiresIn, renewals);
      var n := |r.calls|;
      n >= 2 &&
      (r.exit == NotRenewable <==> r.calls[n - 2] == Lock) &&
      (r.exit == RevokeFailed <==> r.calls[n - 2] == Revoke(false)) &&
      (r.exit == ReacquireFailed <==> r.calls[n - 2] == GetToken(false))
    decreases |renewals|
  {
    if expiresIn != 0 && Renewed(renewals[0]) {
      var next := renewals[0];
      RefreshNextRound(accessToken, expiresIn, renewals);
      var rest := Refresh(next.reacquire.accessToken, next.reacquire.expiresIn, renewals[1..]);
      RefreshExit(next.reacquire.accessToken, next.reacquire.expiresIn, renewals[1..]);
      var round := RoundCalls(expiresIn, renewals);
      assert (round + rest.calls)[|round| + |rest.calls| - 2] == rest.calls[|rest.calls| - 2];
    } else {
      RefreshLastRound(accessToken, expiresIn, renewals);
      if expiresIn != 0 {
        var round := RoundCalls(expiresIn, renewals);
        assert round == [Lock, Unlock, Sleep(expiresIn - SafetyMargin), Lock] + Attempt(renewals[0]) + [Unlock];
      }
    }
  }

  /**
   * The body of a connect request, as decoding it into the `nsp` record sees
   * it: the value of each field the decoder assigned (a key left out, or one
   * whose value has the wrong type, keeps the old value), and the error the
   * decoder reports, if any. A decoder that meets a value of the wrong type
   * still assigns the other fields before it reports the error; a body that
   * is not JSON at all assigns none.
   */
  datatype ConnectRequest = ConnectRequest(ip: Option<string>, user: Option<string>, pass: Option<string>, decodeError: Option<string>)

  /** What the is-connected handler exports: the address and the user, never the token. */
  datatype AccessExport = AccessExport(ip: string, user: string)

  datatype StatusReply = NotConnected(response: Response) | Connected(access: AccessExport)

  /** A field after decoding a key that may be absent. */
  function Overwrite(current: string, decoded: Option<string>): string {
    match decoded
    case Some(v) => v
    case None => current
  }

  /** The server's `nsp` record, its lock and the refresh routines it has started. */
  class Server {
    var ip: string
    var user: string
    var pass: string
    var accessToken: string
    var expiresIn: int
    var locked: bool
    var refreshRoutines: nat
    ghost var calls: seq<Call>

    constructor ()
      ensures ip == "" && user == "" && pass == "" && accessToken == "" && expiresIn == 0
      ensures !locked && refreshRoutines == 0 && calls == []
    {
      ip, user, pass, accessToken, expiresIn := "", "", "", "", 0;
      locked, refreshRoutines, calls := false, 0, [];
    }

    /**
     * `nspConnect`: decode the request into the record, reject missing
     * credentials, ask for a token, and on success start one refresh routine.
     */
    method Connect(request: ConnectRequest, grant: TokenGrant) returns (resp: Response)
      modifies this
      ensures locked == old(locked)
      ensures ip == Overwrite(old(ip), request.ip) && user == Overwrite(old(user), request.user) &&
        pass == Overwrite(old(pass), request.pass)
      ensures request.decodeError.Some? ==>
        resp == RaiseError("decoding NSP connect request failed", request.decodeError)
      ensures request.decodeError.None? && (ip == "" || user == "" || pass == "") ==>
        resp == RaiseError("NSP credentials are missing", None)
      ensures request.decodeError.Some? || ip == "" || user == "" || pass == "" ==>
        calls == old(calls) && refreshRoutines == old(refreshRoutines) &&
        accessToken == old(accessToken) && expiresIn == old(expiresIn)
      ensures request.decodeError.None? && ip != "" && user != "" && pass != "" ==>
        calls == old(calls) + [GetToken(grant.Granted?)]
      ensures request.decodeError.None? && ip != "" && user != "" && pass != "" && grant.Refused? ==>
        resp == RaiseError("error making NSP connection", Some(grant.reason)) &&
        refreshRoutines == old(refreshRoutines) &&
        accessToken == old(accessToken) && expiresIn == old(expiresIn)
      ensures request.decodeError.None? && ip != "" && user != "" && pass != "" && grant.Granted? ==>
        resp == WriteResponse("success", "NSP connected") &&
        refreshRoutines == old(refreshRoutines) + 1 &&
        accessToken == grant.accessToken && expiresIn == grant.expiresIn
    {
      ip := Overwrite(ip, request.ip);
      user := Overwrite(user, request.user);
      pass := Overwrite(pass, request.pass);
      if request.decodeError.Some? {
        return RaiseError("decoding NSP connect request failed", request.decodeError);
      }

      if ip == "" || user == "" || pass == "" {
        return RaiseError("NSP credentials are missing", None);
      }

      calls := calls + [GetToken(grant.Granted?)];
      if grant.Refused? {
        return RaiseError("error making NSP connection", Some(grant.reason));
      }
      accessToken, expiresIn := grant.accessToken, grant.expiresIn;

      refreshRoutines := refreshRoutines + 1;
      return WriteResponse("success", "NSP connected");
    }

    /**
     * `nspDisconnect`: an empty address means not connected and no call is
     * made; otherwise revoke the token and report the outcome.
     */
    method Disconnect(revoke: Outcome) returns (resp: Response)
      modifies this`calls
      ensures ip == "" ==> resp == RaiseError("NSP is not connected", None) && calls == old(calls)
      ensures ip != "" ==> calls == old(calls) + [Revoke(revoke.Pass?)]
      ensures ip != "" && revoke.Fail? ==>
        resp == RaiseError("disconnecting from NSP (" + ip + ") failed", Some(revoke.reason))
      ensures ip != "" && revoke.Pass? ==> resp == WriteResponse("success", "NSP disconnected")
    {
      if ip == "" {
        return RaiseError("NSP is not connected", None);
      }
      calls := calls + [Revoke(revoke.Pass?)];
      if revoke.Fail? {
        return RaiseError("disconnecting from NSP (" + ip + ") failed", Some(revoke.reason));
      }
      return WriteResponse("success", "NSP disconnected");
    }

    /**
     * `nspIsConnected`: connected means holding a token; the export then
     * carries the address and the user only.
     */
    function IsConnected(): (r: StatusReply)
      reads this
      ensures r.Connected? <==> accessToken != ""
      ensures r.Connected? ==> r.access == AccessExport(ip, user)
      ensures r.NotConnected? ==> r.response.status == StatusInternalServerError
    {
      if accessToken == "" then NotConnected(RaiseError("NSP is not connected", None))
      else Connected(AccessExport(ip, user))
    }

    /** The read of the token's lifetime, under the lock, that opens each round of the refresh routine. */
    method ReadExpiresIn() returns (tokenExpiresIn: int)
      requires !locked
      modifies this`locked, this`calls
      ensures !locked && tokenExpiresIn == expiresIn
      ensures calls == old(calls) + [Lock, Unlock]
    {
      locked := true;
      calls := calls + [Lock];
      tokenExpiresIn := expiresIn;
      locked := false;
      calls := calls + [Unlock];
    }

    /**
     * One renewal of the refresh routine: take the lock, revoke, re-acquire,
     * and release the lock on each of the three ways out.
     */
    method Renew(next: Renewal) returns (renewed: bool)
      requires !locked
      modifies this`accessToken, this`expiresIn, this`locked, this`calls
      ensures !locked
      ensures renewed == Renewed(next)
      ensures calls == old(calls) + ([Lock] + Attempt(next) + [Unlock])
      ensures renewed ==> accessToken == next.reacquire.accessToken && expiresIn == next.reacquire.expiresIn
      ensures !renewed ==> accessToken == old(accessToken) && expiresIn == old(expiresIn)
    {
      locked := true;
      calls := calls + [Lock];
      calls := calls + [Revoke(next.revoke.Pass?)];
      if next.revoke.Fail? {
        locked := false;
        calls := calls + [Unlock];
        return false;
      }
      calls := calls + [GetToken(next.reacquire.Granted?)];
      if next.reacquire.Refused? {
        locked := false;
        calls := calls + [Unlock];
        return false;
      }
      accessToken, expiresIn := next.reacquire.accessToken, next.reacquire.expiresIn;
      locked := false;
      calls := calls + [Unlock];
      return true;
    }

    /**
     * One round of the refresh routine's loop: read the lifetime, and unless
     * it is 0, sleep and renew. `pending` holds the outcomes of the renewals
     * still to come. The answer says whether the routine goes round again.
     */
    method RefreshRound(pending: seq<Renewal>) returns (again: bool)
      requires !locked
      requires expiresIn != 0 ==> pending != []
      modifies this`accessToken, this`expiresIn, this`locked, this`calls
      ensures !locked
      ensures again <==> old(expiresIn) != 0 && Renewed(pending[0])
      ensures calls == old(calls) + RoundCalls(old(expiresIn), pending)
      ensures again ==> accessToken == pending[0].reacquire.accessToken && expiresIn == pending[0].reacquire.expiresIn
      ensures !again ==> accessToken == old(accessToken) && expiresIn == old(expiresIn)
    {
      var tokenExpiresIn := ReadExpiresIn();
      if tokenExpiresIn == 0 {
        return false;
      }
      calls := calls + [Sleep(tokenExpiresIn - SafetyMargin)];
      again := Renew(pending[0]);
      AppendAssoc(old(calls), [Lock, Unlock, Sleep(tokenExpiresIn - SafetyMargin)], [Lock] + Attempt(pending[0]) + [Unlock]);
    }

    /**
     * `tokenRefreshRoutine`, run to its end with no other handler in between;
     * `renewals[k]` holds the outcomes of the k-th renewal's two calls.
     */
    method TokenRefreshRoutine(renewals: seq<Renewal>)
      requires !locked
      requires RefreshEnds(expiresIn, renewals)
      modifies this`accessToken, this`expiresIn, this`locked, this`calls
      ensures var run := Refresh(old(accessToken), old(expiresIn), renewals);
        calls == old(calls) + run.calls && accessToken == run.accessToken && expiresIn == run.expiresIn
      ensures !locked
    {
      ghost var whole := Refresh(accessToken, expiresIn, renewals);
      ghost var done: seq<Call> := [];
      var i := 0;
      while true
        invariant 0 <= i <= |renewals|
        invariant !locked
        invariant RefreshEnds(expiresIn, renewals[i..])
        invariant calls == old(calls) + done
        invariant var rest := Refresh(accessToken, expiresIn, renewals[i..]);
          whole == RefreshRun(done + rest.calls, rest.accessToken, rest.expiresIn, rest.exit)
        decreases |renewals| - i
      {
        var pending := renewals[i..];
        ghost var token, lifetime := accessToken, expiresIn;
        ghost var round := RoundCalls(lifetime, pending);
        var again := RefreshRound(pending);
        AppendAssoc(old(calls), done, round);
        if !again {
          RefreshLastRound(token, lifetime, pending);
          return;
        }
        assert pending[1..] == renewals[i + 1..];
        RefreshNextRound(token, lifetime, pending);
        AppendAssoc(done, round, Refresh(accessToken, expiresIn, renewals[i + 1..]).calls);
        done := done + round;
        i := i + 1;
      }
    }
  }

  /** A fresh server that connects with full credentials reports itself connected to that address and user. */
  method ConnectThenStatus(ip: string, user: string, pass: string, token: string, lifetime: int)
    returns (resp: Response, status: StatusReply, routines: nat)
    requires ip != "" && user != "" && pass != "" && token != ""
    ensures resp == Response(StatusOK, "NSP connected")
    ensures status == Connected(AccessExport(ip, user))
    ensures routines == 1
  {
    var s := new Server();
    resp := s.Connect(ConnectRequest(Some(ip), Some(user), Some(pass), None), Granted(token, lifetime));
    status := s.IsConnected();
    routines := s.refreshRoutines;
  }

  /** A first connect that leaves out the password is refused before any token is asked for. */
  method ConnectWithoutPassword(ip: string, user: string) returns (resp: Response, status: StatusReply, routines: nat)
    ensures resp == Response(StatusInternalServerError, "NSP credentials are missing\n")
    ensures status.NotConnected? && routines == 0
  {
    var s := new Server();
    resp := s.Connect(ConnectRequest(Some(ip), Some(user), None, None), Granted("t", 3600));
    status := s.IsConnected();
    routines := s.refreshRoutines;
  }

  /**
   * Each successful connect starts a refresh routine of its own: nothing stops
   * the routine of an earlier connect, so two connects leave two routines.
   */
  method ConnectTwice(ip: string, user: string, pass: string) returns (routines: nat)
    requires ip != "" && user != "" && pass != ""
    ensures routines == 2
  {
    var s := new Server();
    var request := ConnectRequest(Some(ip), Some(user), Some(pass), None);
    var _ := s.Connect(request, Granted("first", 3600));
    var _ := s.Connect(request, Granted("second", 3600));
    routines := s.refreshRoutines;
  }

  /**
   * A reconnect that clears the address is refused, but the record keeps the
   * cleared address and the old token: the server still reports itself
   * connected, with an empty address, while disconnect answers that it is not.
   */
  method RejectedReconnectKeepsToken(ip: string, user: string, pass: string, token: string)
    returns (resp: Response, status: StatusReply, disconnect: Response)
    requires ip != "" && user != "" && pass != "" && token != ""
    ensures resp == Response(StatusInternalServerError, "NSP credentials are missing\n")
    ensures status == Connected(AccessExport("", user))
    ensures disconnect == Response(StatusInternalServerError, "NSP is not connected\n")
  {
    var s := new Server();
    var _ := s.Connect(ConnectRequest(Some(ip), Some(user), Some(pass), None), Granted(token, 3600));
    resp := s.Connect(ConnectRequest(Some(""), None, None, None), Granted(token, 3600));
    status := s.IsConnected();
    disconnect := s.Disconnect(Pass);
  }

  /** Disconnecting a server that never connected is refused, whatever the revoke would have answered. */
  method DisconnectNeverConnected(revoke: Outcome) returns (resp: Response)
    ensures resp == Response(StatusInternalServerError, "NSP is not connected\n")
  {
    var s := new Server();
    resp := s.Disconnect(revoke);
  }

  /**
   * A connect request refused for a badly typed value still sets the address
   * it carries: the server then reports itself not connected, yet disconnect
   * goes on to revoke.
   */
  method PartlyDecodedConnectSetsAddress(ip: string, err: string, revoke: Outcome)
    returns (resp: Response, status: StatusReply, disconnect: Response)
    requires ip != ""
    ensures resp == Response(StatusInternalServerError, "decoding NSP connect request failed / " + err + "\n")
    ensures status.NotConnected?
    ensures revoke.Pass? ==> disconnect == Response(StatusOK, "NSP disconnected")
    ensures revoke.Fail? ==>
      disconnect == Response(StatusInternalServerError, "disconnecting from NSP (" + ip + ") failed / " + revoke.reason + "\n")
  {
    var s := new Server();
    resp := s.Connect(ConnectRequest(Some(ip), None, None, Some(err)), Granted("t", 3600));
    status := s.IsConnected();
    disconnect := s.Disconnect(revoke);
  }
}
