/** What the updater decides (OTAService.h): which release is newer, what a
    check finds, what a download comes to, and when it tries again. */
module OtaMeans {
  import opened Text
  import opened OtaService

  // ── Releases ───────────────────────────────────────────────────────────────

  // "v" and a number; of more than nine digits only the first few are taken
  predicate IsTag(tag: string) {
    |tag| >= 2 && tag[0] == 'v' && AllDigits(tag[1..]) && NumberIn(tag[1..|tag| - 1]) <= 100_000_000
  }

  lemma {:induction false} NumberGrows(p: string, q: string)
    requires AllDigits(p + q)
    ensures AllDigits(p) && NumberIn(p) <= NumberIn(p + q)
    decreases |q|
  {
    assert forall i | 0 <= i < |p| :: (p + q)[i] == p[i];
    if q == "" {
      assert p + q == p;
    } else {
      var n := |q| - 1;
      assert (p + q)[..|p + q| - 1] == p + q[..n];
      assert forall i | 0 <= i < |p + q[..n]| :: (p + q)[i] == (p + q[..n])[i];
      NumberGrows(p, q[..n]);
    }
  }

  // From the digits already taken
  lemma {:induction false} DigitsTaken(p: string, d: string)
    requires AllDigits(p)
    ensures TagDigits(d, NumberIn(p)) ==
            if AllDigits(d) && (d == "" || (AllDigits((p + d)[..|p + d| - 1]) && NumberIn((p + d)[..|p + d| - 1]) <= 100_000_000))
            then (AllTogether(p, d); NumberIn(p + d)) else -1
    decreases |d|
  {
    if d == "" {
      assert p + d == p;
    } else if IsDigit(d[0]) {
      var q := p + [d[0]];
      assert q[..|p|] == p && q[|p|] == d[0];
      assert p + d == q + d[1..];
      assert AllDigits(d) <==> AllDigits(d[1..]) by {
        assert forall i | 1 <= i < |d| :: d[i] == d[1..][i - 1];
        assert forall i | 0 <= i < |d| - 1 :: d[1..][i] == d[i + 1];
      }
      if NumberIn(p) <= 100_000_000 {
        DigitsTaken(q, d[1..]);
        if |d| == 1 {
          assert (p + d)[..|p + d| - 1] == p;
        }
      } else if AllDigits(d) {
        AllTogether(p, d);
        var all := (p + d)[..|p + d| - 1];
        assert all == p + d[..|d| - 1];
        assert forall i | 0 <= i < |all| :: all[i] == (p + d)[i];
        NumberGrows(p, d[..|d| - 1]);
      }
    }
  }

  lemma AllTogether(p: string, d: string)
    requires AllDigits(p) && AllDigits(d)
    ensures AllDigits(p + d)
  {
  }

  // The number of a tag, and -1 for any other text
  lemma ParseTagExactly(tag: string)
    ensures ParseTag(tag) == if IsTag(tag) then NumberIn(tag[1..]) else -1
  {
    if |tag| >= 2 && tag[0] == 'v' {
      DigitsTaken("", tag[1..]);
      assert "" + tag[1..] == tag[1..];
      assert tag[1..][..|tag| - 2] == tag[1..|tag| - 1];
      if AllDigits(tag[1..]) {
        assert forall i | 0 <= i < |tag| - 2 :: tag[1..|tag| - 1][i] == tag[1..][i];
      }
    }
  }

  lemma ParseTagOfNumber(n: nat)
    requires n < 1_000_000_000
    ensures ParseTag("v" + Decimal(n)) == n
  {
    var tag := "v" + Decimal(n);
    assert tag[1..] == Decimal(n);
    NumberInDecimal(n);
    if n >= 10 {
      assert tag[1..|tag| - 1] == Decimal(n / 10);
      NumberInDecimal(n / 10);
    } else {
      assert tag[1..|tag| - 1] == "";
    }
    ParseTagExactly(tag);
  }

  // A release is newer when its number is larger, and newer than any build that
  // is no release
  lemma NewerExactly(m: nat, n: nat)
    requires m < 1_000_000_000 && n < 1_000_000_000
    ensures IsNewer("v" + Decimal(m), "v" + Decimal(n)) <==> m > n
  {
    ParseTagOfNumber(m);
    ParseTagOfNumber(n);
  }

  lemma NewerThanNoRelease(m: nat, current: string)
    requires m < 1_000_000_000 && !IsTag(current)
    ensures IsNewer("v" + Decimal(m), current)
  {
    ParseTagOfNumber(m);
    ParseTagExactly(current);
  }

  lemma NoReleaseIsNewer(latest: string, current: string)
    requires !IsTag(latest)
    ensures !IsNewer(latest, current)
  {
    ParseTagExactly(latest);
  }

  // ── A check ────────────────────────────────────────────────────────────────

  lemma PersistKeepsTag(s: Ota, e: Env)
    ensures PersistAndReboot(s, e).available == s.available
  {
    hide Line, SameLink;
    if s.pendingBoots + 1 > MAX_BOOTS {
      assert ClearPending(s).available == s.available;
    } else {
      assert SavePending(s, s.available, s.pendingBoots + 1, e).available == s.available;
    }
  }

  lemma FailedKeepsTag(s: Ota, now: Word, e: Env)
    ensures DownloadFailed(s, now, e).available == s.available
  {
    hide PersistAndReboot, Again;
    PersistKeepsTag(s.(stage := Idle, tries := 0, retryDelay := 0, nextRetry := 0), e);
    AgainKeepsTag(s.(stage := Idle), now);
  }

  lemma AgainKeepsTag(s: Ota, now: Word)
    ensures Again(s, now, true).available == s.available
  {
  }

  lemma RecoverKeepsTag(s: Ota, e: Env)
    requires s.available != ""
    ensures RecoverHeap(s, e).available == s.available
  {
    hide PersistAndReboot;
    PersistKeepsTag(s, e);
  }

  lemma {:induction false} PumpKeepsTag(s: Ota, now: Word, e: Env, r: seq<Reply>, current: string)
    requires s.available != "" && s.stage == DownloadHeaders
    ensures Pump(s, now, e, r, current).available == s.available
    decreases |r|, 1
  {
    if r != [] && !r[0].Quiet? {
      hide OnDownloadHeaders;
      AnswerKeepsTag(s, now, e, r, current);
    }
  }

  lemma {:induction false} AnswerKeepsTag(s: Ota, now: Word, e: Env, r: seq<Reply>, current: string)
    requires s.available != "" && r != []
    ensures OnDownloadHeaders(s, now, e, r, current).available == s.available
    decreases |r|, 0
  {
    hide DownloadFailed, DownloadConnect;
    FailedKeepsTag(s, now, e);
    var more := s.(hop := s.hop + 1);
    FailedKeepsTag(more, now, e);
    if r[0].Headers? && Redirect(r[0].code) && r[0].location && s.hop + 1 < MAX_REDIRECTS {
      ConnectKeepsTag(more, now, e, r[1..], current);
    }
  }

  lemma {:induction false} ConnectKeepsTag(s: Ota, now: Word, e: Env, r: seq<Reply>, current: string)
    requires s.available != ""
    ensures DownloadConnect(s, now, e, r, current).available == s.available
    decreases |r|, 2
  {
    hide DownloadFailed, Pump;
    var c := s.(sessions := s.sessions + 1);
    FailedKeepsTag(c, now, e);
    if r == [] || !r[0].Refused? {
      PumpKeepsTag(c.(stage := DownloadHeaders), now, e, r, current);
    }
  }

  lemma DownloadKeepsTag(s: Ota, now: Word, e: Env, r: seq<Reply>, current: string)
    requires s.available != ""
    ensures Download(s, now, e, r, current).available == s.available
  {
    hide DownloadConnect, DownloadFailed, RecoverHeap;
    if e.heapDownload {
      ConnectKeepsTag(s.(hop := 0), now, e, r, current);
    } else {
      RecoverKeepsTag(s, e);
      FailedKeepsTag(RecoverHeap(s, e), now, e);
    }
  }

  // A check that reads a tag: there is a new version exactly when it is newer.
  // It is installed if the check was for that and it was not rejected before;
  // and one that is not newer ends the recovery, if there was one
  lemma CheckFinds(s: Ota, now: Word, e: Env, current: string)
    requires !s.inProgress && s.stage == CheckBody && e.replies != [] && e.replies[0].Tag? && e.replies[0].name != ""
    ensures var t, name := Tick(s, now, e, current), e.replies[0].name;
            && t.available == (if IsNewer(name, current) then name else "")
            && (!IsNewer(name, current) ==>
                  t == s.(stage := Idle, latest := name, available := "", tries := 0, retryDelay := 0, file := None,
                          pendingBoots := 0, slim := false, restart := s.restart || s.slim))
            && (IsNewer(name, current) && !s.checkInstall ==> t == s.(stage := Idle, latest := name, available := name))
            && (IsNewer(name, current) && s.checkInstall && name == s.rejected ==>
                  t == s.(stage := Idle, latest := name, available := name, tries := 0, retryDelay := 0, file := None,
                          pendingBoots := 0, slim := false, restart := s.restart || s.slim))
            && (IsNewer(name, current) && s.checkInstall && name != s.rejected && e.heapDownload ==> t.sessions > s.sessions)
  {
    hide IsNewer, Download;
    var name := e.replies[0].name;
    var q := s.(stage := Idle, latest := name);
    assert Tick(s, now, e, current) == AfterCheck(q, now, e, e.replies[1..], current);
    if IsNewer(name, current) && s.checkInstall && name != s.rejected {
      DownloadKeepsTag(q.(available := name), now, e, e.replies[1..], current);
      DownloadBegins(q.(available := name), now, e, e.replies[1..], current);
    }
  }

  lemma DownloadBegins(s: Ota, now: Word, e: Env, r: seq<Reply>, current: string)
    ensures e.heapDownload ==> Download(s, now, e, r, current).sessions > s.sessions
  {
    hide Pump, DownloadFailed;
  }

  // In numbers: what a device with release n finds of release m
  lemma CheckFindsNumber(s: Ota, now: Word, e: Env, m: nat, n: nat)
    requires !s.inProgress && s.stage == CheckBody && m < 1_000_000_000 && n < 1_000_000_000
    requires e.replies != [] && e.replies[0] == Tag("v" + Decimal(m))
    ensures var t := Tick(s, now, e, "v" + Decimal(n)); t.available == if m > n then "v" + Decimal(m) else ""
  {
    hide Tick, IsNewer;
    NewerExactly(m, n);
    CheckFinds(s, now, e, "v" + Decimal(n));
  }

  // ── A download ─────────────────────────────────────────────────────────────

  // What the answer to the request comes to: the image, another place to ask,
  // five at the most, or a failure
  lemma AnswerMeans(s: Ota, now: Word, e: Env, current: string)
    requires !s.inProgress && s.stage == DownloadHeaders && |e.replies| == 1 && e.replies[0].Headers?
    ensures var t, h := Tick(s, now, e, current), e.replies[0];
            var moved := h.code in {301, 302, 303, 307, 308};
            && (t.inProgress <==> h.code == 200 && h.length != 0 && e.room)
            && (t.inProgress ==> t == s.(stage := Idle, inProgress := true))
            && (moved && h.location && s.hop < 4 ==> t == s.(hop := s.hop + 1, sessions := s.sessions + 1))
            && (!t.inProgress && !(moved && h.location && s.hop < 4) ==> t.stage.Idle? && t.sessions == s.sessions)
  {
    hide DownloadFailed;
    var more := s.(hop := s.hop + 1);
    assert e.replies[1..] == [];
    assert Tick(s, now, e, current) == OnDownloadHeaders(s, now, e, e.replies, current);
    assert DownloadConnect(more, now, e, [], current) == more.(sessions := s.sessions + 1, stage := DownloadHeaders);
  }

  // An image that is whole and signed is installed: the restart, and no request
  // left. One that is refused is not tried again
  lemma ImageMeans(s: Ota, now: Word, e: Env, current: string)
    requires s.inProgress && e.connected
    ensures var t := Tick(s, now, e, current);
            && (e.stream.Ended? && e.stream.accepted ==>
                  t == s.(inProgress := false, restart := true, tries := 0, retryDelay := 0, file := None, pendingBoots := 0, slim := false))
            && (e.stream.Ended? && !e.stream.accepted ==>
                  t == s.(inProgress := false, rejected := s.available, tries := 0, retryDelay := 0, file := None,
                          pendingBoots := 0, slim := false, restart := s.restart || s.slim))
            && (e.stream.Waiting? || e.stream.Chunk? ==> t == s)
  {
  }

  // ── When ───────────────────────────────────────────────────────────────────

  // Nothing begins before a restart, without Wi-Fi or before a retry is due
  lemma Holds(s: Ota, now: Word, e: Env, current: string)
    requires !s.inProgress && s.stage.Idle? && (s.restart || !e.connected || (s.nextRetry != 0 && now < s.nextRetry))
    ensures Tick(s, now, e, current) == s
  {
  }

  // The first check 20 s after power on, then one each hour, until 23 hours
  lemma WantsNetExactly(s: Ota, now: Word)
    ensures WantsNet(s, now) <==>
            || s.inProgress || !s.stage.Idle? || s.wantCheck || s.wantInstall
            || (s.automatic && now < 82_800_000 &&
                (if s.lastCheck == 0 then now >= 20_000 else Since(now, s.lastCheck) >= 3_600_000))
  {
  }

  function Failures(s: Ota, nows: seq<Word>, install: bool, e: Env): Ota {
    if nows == [] then s else ScheduleRetry(Failures(s, nows[..|nows| - 1], install, e), nows[|nows| - 1], install, e)
  }

  // The first failure waits 10 s, the next two 20, and the fourth gives up:
  // after an install, to a restart with the request in flash
  lemma {:induction false} RetriesAre(s: Ota, nows: seq<Word>, install: bool, e: Env)
    requires s.tries == 0 && s.retryDelay == 0 && 0 < |nows| <= 3
    ensures var t := Failures(s, nows, install, e);
            var delay := if |nows| == 1 then 10_000 else 20_000;
            t == s.(tries := |nows|, retryDelay := delay, nextRetry := Later(nows[|nows| - 1], delay),
                    wantInstall := s.wantInstall || install, wantCheck := s.wantCheck || !install)
    decreases |nows|
  {
    hide GivenUp, Later;
    var n := |nows| - 1;
    if n > 0 {
      RetriesAre(s, nows[..n], install, e);
    } else {
      assert nows[..0] == [];
    }
  }

  lemma FourthGivesUp(s: Ota, nows: seq<Word>, install: bool, e: Env)
    requires s.tries == 0 && s.retryDelay == 0 && |nows| == 4
    ensures var t := Failures(s, nows, install, e);
            && t.tries == 0 && t.retryDelay == 0 && t.nextRetry == 0
            && (!install ==> t.restart == s.restart && t.file == s.file)
            && (install ==> t.restart)
            && (install && s.pendingBoots < 3 && e.saved ==> t.file == Some(Line(s.available, s.pendingBoots + 1)))
            && (install && s.pendingBoots >= 3 ==> t.file == None && !t.wantInstall && !t.wantCheck && !t.slim)
  {
    hide PersistAndReboot, Later, Line;
    RetriesAre(s, nows[..3], install, e);
    var q := Failures(s, nows[..3], install, e);
    assert Failures(s, nows, install, e) == GivenUp(q, install, e);
    PersistMeans(q.(tries := 0, retryDelay := 0, nextRetry := 0), e);
  }

  lemma PersistMeans(s: Ota, e: Env)
    ensures var t := PersistAndReboot(s, e);
            && t.restart && t.tries == s.tries && t.retryDelay == s.retryDelay && t.nextRetry == s.nextRetry
            && (s.pendingBoots < 3 && e.saved ==> t.file == Some(Line(s.available, s.pendingBoots + 1)))
            && (s.pendingBoots >= 3 ==> t.file == None && !t.wantInstall && !t.wantCheck && !t.slim)
  {
    hide Line;
  }

  // ── What begins, and what fails ────────────────────────────────────────────

  // One more failure: the same again later, unless a restart is near or it was
  // the fourth
  ghost predicate TriesAgain(s: Ota, t: Ota, now: Word, install: bool) {
    && !t.inProgress && t.stage.Idle? && t.sessions == s.sessions
    && (s.restart ==> t == s.(inProgress := false, stage := Idle))
    && (!s.restart && s.tries < 3 ==>
          && t.tries == s.tries + 1 && t.nextRetry == Later(now, t.retryDelay) && !t.restart
          && t.retryDelay == (if s.retryDelay == 0 then 10_000 else if s.retryDelay <= 10_000 then 2 * s.retryDelay else 20_000)
          && t.wantInstall == (s.wantInstall || install) && t.wantCheck == (s.wantCheck || !install))
    && (!s.restart && s.tries >= 3 ==> t.tries == 0 && t.retryDelay == 0 && t.nextRetry == 0 && (t.restart <==> install))
  }

  // An updater that is free and held by nothing takes up what was asked, an
  // install first, or the check that is due; and otherwise does nothing
  lemma StartsExactly(s: Ota, now: Word, e: Env, current: string)
    requires !s.inProgress && s.stage.Idle? && !s.restart && e.connected && (s.nextRetry == 0 || now >= s.nextRetry)
    requires e.heapCheck && e.heapDownload && (e.replies == [] || e.replies[0].Quiet?)
    ensures var t := Tick(s, now, e, current);
            var due := s.automatic && now < 82_800_000 &&
                       if s.lastCheck == 0 then now >= 20_000 else Since(now, s.lastCheck) >= 3_600_000;
            t == if s.wantInstall then
                   s.(wantInstall := false, nextRetry := 0, hop := 0, sessions := s.sessions + 1, stage := DownloadHeaders)
                 else if s.wantCheck then
                   s.(wantCheck := false, nextRetry := 0, checkInstall := s.slim, latest := "", sessions := s.sessions + 1,
                      stage := CheckHeaders)
                 else if due then
                   s.(lastCheck := now, nextRetry := 0, checkInstall := true, latest := "", sessions := s.sessions + 1,
                      stage := CheckHeaders)
                 else s
  {
    hide Download, CheckNow;
    DownloadsFrom(s.(wantInstall := false, nextRetry := 0), now, e, current);
    ChecksFrom(s.(wantCheck := false, nextRetry := 0), now, s.slim, e, current);
    ChecksFrom(s.(lastCheck := now, nextRetry := 0), now, true, e, current);
  }

  lemma DownloadsFrom(s: Ota, now: Word, e: Env, current: string)
    requires e.heapDownload && (e.replies == [] || e.replies[0].Quiet?)
    ensures Download(s, now, e, e.replies, current) == s.(hop := 0, sessions := s.sessions + 1, stage := DownloadHeaders)
  {
    var t := s.(hop := 0, sessions := s.sessions + 1, stage := DownloadHeaders);
    assert Pump(t, now, e, e.replies, current) == t;
    assert DownloadConnect(s.(hop := 0), now, e, e.replies, current) == t;
  }

  lemma ChecksFrom(s: Ota, now: Word, install: bool, e: Env, current: string)
    requires e.heapCheck && (e.replies == [] || e.replies[0].Quiet?)
    ensures CheckNow(s, now, install, e, current)
         == s.(checkInstall := install, latest := "", sessions := s.sessions + 1, stage := CheckHeaders)
  {
  }

  // Without the memory for a connection, the request goes to flash and the
  // device restarts; after the third recovery, without it
  lemma NoMemoryMeans(s: Ota, now: Word, e: Env, current: string)
    requires !s.inProgress && s.stage.Idle? && !s.restart && e.connected && (s.nextRetry == 0 || now >= s.nextRetry)
    requires if s.wantInstall then !e.heapDownload else s.wantCheck && !e.heapCheck
    ensures var t := Tick(s, now, e, current);
            && t.restart && t.stage.Idle? && !t.inProgress && t.sessions == s.sessions
            && (s.pendingBoots < 3 && e.saved ==>
                  t.file == Some(Line(if s.available == "" then "check" else s.available, s.pendingBoots + 1)))
            && (s.pendingBoots >= 3 ==> t.file == None && !t.wantInstall && !t.wantCheck && !t.slim)
  {
    hide PersistAndReboot, Line;
    var q := if s.wantInstall then s.(wantInstall := false, nextRetry := 0)
             else s.(wantCheck := false, nextRetry := 0, checkInstall := s.slim, latest := "");
    PersistMeans(q, e);
    PersistMeans(q.(available := "check"), e);
  }

  // The head of an answer about the release is followed by its body if it is
  // 200, and nothing has come yet of the body
  lemma CheckHeadMeans(s: Ota, now: Word, e: Env, current: string)
    requires !s.inProgress && s.stage.CheckHeaders? && |e.replies| == 1
    ensures var t, h := Tick(s, now, e, current), e.replies[0];
            && (h.Quiet? ==> t == s)
            && (h.Headers? && h.code == 200 ==> t == s.(stage := CheckBody, latest := ""))
            && (!h.Quiet? && !(h.Headers? && h.code == 200) ==> TriesAgain(s, t, now, false))
  {
    hide PersistAndReboot;
    var body := s.(stage := CheckBody, latest := "");
    assert e.replies[1..] == [];
    assert Pump(body, now, e, [], current) == body;
  }

  lemma CheckBodyFails(s: Ota, now: Word, e: Env, current: string)
    requires !s.inProgress && s.stage.CheckBody? && e.replies != [] && !e.replies[0].Quiet?
    requires !e.replies[0].Tag? || e.replies[0].name == ""
    ensures TriesAgain(s, Tick(s, now, e, current), now, false)
  {
    hide PersistAndReboot;
  }

  // So does a download whose answer is no answer
  lemma DownloadFails(s: Ota, now: Word, e: Env, current: string)
    requires !s.inProgress && s.stage.DownloadHeaders? && e.replies != [] && !e.replies[0].Quiet? && !e.replies[0].Headers?
    ensures TriesAgain(s, Tick(s, now, e, current), now, true)
  {
    assert Tick(s, now, e, current) == OnDownloadHeaders(s, now, e, e.replies, current) == DownloadFailed(s, now, e);
    DownloadAgain(s, now, e);
  }

  lemma DownloadAgain(s: Ota, now: Word, e: Env)
    requires !s.inProgress
    ensures TriesAgain(s, DownloadFailed(s, now, e), now, true)
  {
    hide ScheduleRetry, Later;
    if !s.restart {
      RetryMeans(s.(stage := Idle), now, true, e);
    }
  }

  // From where a retry is scheduled
  lemma RetryMeans(q: Ota, now: Word, install: bool, e: Env)
    requires !q.inProgress && q.stage.Idle? && !q.restart
    ensures TriesAgain(q, ScheduleRetry(q, now, install, e), now, install)
  {
    hide PersistAndReboot;
    PersistMeans(q.(tries := 0, retryDelay := 0, nextRetry := 0), e);
  }

  // An image whose connection is lost is asked for again
  lemma StreamFails(s: Ota, now: Word, e: Env, current: string)
    requires s.inProgress && s.stage.Idle? && !s.restart && (!e.connected || e.stream.Failed?)
    ensures TriesAgain(s, Tick(s, now, e, current), now, true)
  {
    hide ScheduleRetry, Later;
    RetryMeans(s.(inProgress := false), now, true, e);
  }

  // At power on nothing is asked, and nothing begins in the first 20 s
  lemma PoweredOnWaits(automatic: bool, rejected: string, file: Option<string>, now: Word, e: Env, current: string)
    requires now < 20_000
    ensures var s := PoweredOn(automatic, rejected, file);
            && !WantsNet(s, now) && Tick(s, now, e, current) == s
            && s.available == "" && s.rejected == rejected && s.file == file && !s.slim && s.pendingBoots == 0
  {
  }

  // What is asked for is taken up unless something runs already
  lemma RequestsMean(s: Ota)
    ensures RequestCheck(s) == if Active(s) || s.wantCheck then s else s.(wantCheck := true, wantInstall := false, nextRetry := 0)
    ensures RequestInstall(s) ==
            if Active(s) || s.available == "" then s else s.(wantInstall := true, wantCheck := false, nextRetry := 0)
  {
  }
}
