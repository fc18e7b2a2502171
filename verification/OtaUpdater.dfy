/** The updater as it runs (OTAService.h): its fields changed in place, each
    method against the step that OtaService describes. */
module OtaUpdater {
  import opened Text
  import opened S = OtaService

  class Updater {
    var inProgress: bool
    var automatic: bool
    var wantCheck: bool
    var wantInstall: bool
    var slim: bool
    var available: string
    var rejected: string
    var latest: string
    var lastCheck: Word
    var nextRetry: Word
    var retryDelay: nat
    var tries: nat
    var pendingBoots: nat
    var stage: Stage
    var checkInstall: bool
    var hop: nat
    var restart: bool
    var file: Option<string>
    var sessions: nat

    function Now(): Ota
      reads this
    {
      Ota(inProgress, automatic, wantCheck, wantInstall, slim, available, rejected, latest, lastCheck, nextRetry,
          retryDelay, tries, pendingBoots, stage, checkInstall, hop, restart, file, sessions)
    }

    constructor (automatic: bool, rejected: string, file: Option<string>)
      ensures Now() == PoweredOn(automatic, rejected, file)
    {
      this.automatic, this.rejected, this.file := automatic, rejected, file;
      inProgress, wantCheck, wantInstall, slim, checkInstall, restart := false, false, false, false, false, false;
      available, latest, lastCheck, nextRetry := "", "", 0, 0;
      retryDelay, tries, pendingBoots, stage, hop, sessions := 0, 0, 0, Idle, 0, 0;
    }

    // ── What the panel and the relay ask ─────────────────────────────────────

    method SetAutomatic(on: bool)
      modifies `automatic
      ensures Now() == old(Now()).(automatic := on)
    {
      automatic := on;
    }

    method WantsNet(now: Word) returns (wants: bool)
      ensures wants == S.WantsNet(Now(), now)
    {
      if inProgress || stage != Idle || wantCheck || wantInstall {
        return true;
      }
      if !automatic || now >= DEADLINE {
        return false;
      }
      wants := if lastCheck == 0 then now >= FIRST_CHECK else Since(now, lastCheck) >= CHECK_INTERVAL;
    }

    method Offer(tag: string, now: Word, current: string)
      modifies `lastCheck
      ensures Now() == S.OfferLatest(old(Now()), tag, now, current)
    {
      if inProgress || stage != Idle || wantCheck || wantInstall || ParseTag(tag) < 0 {
        return;
      }
      lastCheck := if IsNewer(tag, current) then 0 else now;
    }

    method RequestCheck()
      modifies `wantInstall, `nextRetry, `wantCheck
      ensures Now() == S.RequestCheck(old(Now()))
    {
      if inProgress || stage != Idle || wantCheck {
        return;
      }
      wantInstall, nextRetry, wantCheck := false, 0, true;
    }

    method RequestInstall()
      modifies `wantInstall, `nextRetry, `wantCheck
      ensures Now() == S.RequestInstall(old(Now()))
    {
      if inProgress || stage != Idle || available == "" {
        return;
      }
      wantCheck, nextRetry, wantInstall := false, 0, true;
    }

    // ── The request in flash ─────────────────────────────────────────────────

    method ClearPending()
      modifies `file, `pendingBoots, `slim
      ensures Now() == S.ClearPending(old(Now()))
    {
      file, pendingBoots, slim := None, 0, false;
    }

    method PersistAndReboot(e: Env)
      modifies `file, `pendingBoots, `slim, `wantInstall, `wantCheck, `restart
      ensures Now() == S.PersistAndReboot(old(Now()), e)
    {
      if pendingBoots + 1 > MAX_BOOTS {
        ClearPending();
        wantInstall, wantCheck := false, false;
      } else if e.saved {
        file := Some(Line(available, pendingBoots + 1));
      }
      restart := true;
    }

    method RecoverHeap(e: Env)
      modifies `available, `file, `pendingBoots, `slim, `wantInstall, `wantCheck, `restart
      ensures Now() == S.RecoverHeap(old(Now()), e)
    {
      if available == "" {
        available := "check";
      }
      PersistAndReboot(e);
    }

    // ── Retries ──────────────────────────────────────────────────────────────

    method ScheduleRetry(now: Word, install: bool, e: Env)
      modifies this
      ensures Now() == S.ScheduleRetry(old(Now()), now, install, e)
    {
      hide S.GivenUp, S.Again;
      if tries + 1 >= MAX_TRIES {
        GiveUp(install, e);
      } else {
        Again(now, install);
      }
    }

    method GiveUp(install: bool, e: Env)
      modifies this
      ensures Now() == S.GivenUp(old(Now()), install, e)
    {
      hide S.PersistAndReboot;
      tries, retryDelay, nextRetry := 0, 0, 0;
      if install {
        PersistAndReboot(e);
      }
    }

    method Again(now: Word, install: bool)
      modifies `tries, `retryDelay, `nextRetry, `wantInstall, `wantCheck
      ensures Now() == S.Again(old(Now()), now, install)
    {
      hide S.NextDelay, Later, S.SameLink;
      Delay(now);
      if install {
        wantInstall := true;
      } else {
        wantCheck := true;
      }
    }

    method Delay(now: Word)
      modifies `tries, `retryDelay, `nextRetry
      ensures retryDelay == S.NextDelay(old(retryDelay)) && tries == old(tries) + 1 && nextRetry == Later(now, retryDelay)
    {
      tries := tries + 1;
      retryDelay := if retryDelay == 0 then RETRY_MS else retryDelay * 2;
      if retryDelay > RETRY_MAX_MS {
        retryDelay := RETRY_MAX_MS;
      }
      nextRetry := Later(now, retryDelay);
    }

    method Fail(now: Word, install: bool, e: Env)
      modifies this
      ensures Now() == if install then S.DownloadFailed(old(Now()), now, e) else S.CheckFailed(old(Now()), now, e)
    {
      stage := Idle;
      if !restart {
        ScheduleRetry(now, install, e);
      }
    }

    method Settle()
      modifies `tries, `retryDelay, `file, `pendingBoots, `slim, `restart
      ensures Now() == S.Settle(old(Now()))
    {
      hide S.ClearPending;
      var restore := slim;
      tries, retryDelay := 0, 0;
      ClearPending();
      if restore {
        restart := true;
      }
    }

    // ── Check and download ───────────────────────────────────────────────────

    method Check(now: Word, install: bool, e: Env, current: string)
      modifies this
      ensures Now() == S.CheckNow(old(Now()), now, install, e, current)
    {
      hide S.CheckConnect, S.CheckFailed, S.RecoverHeap;
      checkInstall, latest := install, "";
      if !e.heapCheck {
        RecoverHeap(e);
        Fail(now, false, e);
        return;
      }
      CheckConnect(now, e, current);
    }

    method CheckConnect(now: Word, e: Env, current: string)
      modifies this
      ensures Now() == S.CheckConnect(old(Now()), now, e, current)
    {
      hide S.Pump, S.CheckFailed;
      sessions := sessions + 1;
      if e.replies != [] && e.replies[0].Refused? {
        Fail(now, false, e);
        return;
      }
      stage := CheckHeaders;
      Pump(now, e, e.replies, current);
    }

    // The replies that arrived, through the stage they belong to
    method Pump(now: Word, e: Env, r: seq<Reply>, current: string)
      modifies this
      ensures Now() == S.Pump(old(Now()), now, e, r, current)
      decreases |r|, 1
    {
      hide S.CheckFailed, S.AfterCheck, S.OnDownloadHeaders;
      if r == [] || r[0].Quiet? {
        return;
      }
      match stage {
        case Idle =>
        case CheckHeaders =>
          if r[0].Headers? && r[0].code == 200 {
            stage, latest := CheckBody, "";
            Pump(now, e, r[1..], current);
          } else {
            Fail(now, false, e);
          }
        case CheckBody =>
          if r[0].Tag? && r[0].name != "" {
            stage, latest := Idle, r[0].name;
            AfterCheck(now, e, r[1..], current);
          } else {
            Fail(now, false, e);
          }
        case DownloadHeaders => OnHeaders(now, e, r, current);
      }
    }

    method AfterCheck(now: Word, e: Env, r: seq<Reply>, current: string)
      modifies this
      ensures Now() == S.AfterCheck(old(Now()), now, e, r, current)
      decreases |r|, 4
    {
      hide S.Settle, S.Download;
      if !IsNewer(latest, current) {
        available := "";
        Settle();
        return;
      }
      available := latest;
      if !checkInstall {
        return;
      }
      if available == rejected {
        Settle();
        return;
      }
      Download(now, e, r, current);
    }

    method Download(now: Word, e: Env, r: seq<Reply>, current: string)
      modifies this
      ensures Now() == S.Download(old(Now()), now, e, r, current)
      decreases |r|, 3
    {
      hide S.RecoverHeap, S.DownloadFailed, S.DownloadConnect;
      if !e.heapDownload {
        RecoverHeap(e);
        Fail(now, true, e);
        return;
      }
      hop := 0;
      Connect(now, e, r, current);
    }

    method Connect(now: Word, e: Env, r: seq<Reply>, current: string)
      modifies this
      ensures Now() == S.DownloadConnect(old(Now()), now, e, r, current)
      decreases |r|, 2
    {
      hide S.Pump, S.DownloadFailed;
      sessions := sessions + 1;
      if r != [] && r[0].Refused? {
        Fail(now, true, e);
        return;
      }
      stage := DownloadHeaders;
      Pump(now, e, r, current);
    }

    method OnHeaders(now: Word, e: Env, r: seq<Reply>, current: string)
      requires r != []
      modifies this
      ensures Now() == S.OnDownloadHeaders(old(Now()), now, e, r, current)
      decreases |r|, 0
    {
      hide S.DownloadFailed, S.DownloadConnect;
      if !r[0].Headers? {
        Fail(now, true, e);
        return;
      }
      if Redirect(r[0].code) {
        if !r[0].location {
          Fail(now, true, e);
          return;
        }
        hop := hop + 1;
        if hop >= MAX_REDIRECTS {
          Fail(now, true, e);
          return;
        }
        Connect(now, e, r[1..], current);
        return;
      }
      if r[0].code != 200 || r[0].length == 0 || !e.room {
        Fail(now, true, e);
        return;
      }
      stage, inProgress := Idle, true;
    }

    // ── A tick ───────────────────────────────────────────────────────────────

    method StreamChunk(now: Word, e: Env)
      modifies this
      ensures Now() == S.StreamChunk(old(Now()), now, e)
    {
      hide S.ScheduleRetry, S.Complete;
      if !e.connected || e.stream.Failed? {
        inProgress := false;
        ScheduleRetry(now, true, e);
      } else if e.stream.Ended? {
        Complete(e.stream.accepted);
      }
    }

    // The signature decides
    method Complete(accepted: bool)
      modifies this
      ensures Now() == S.Complete(old(Now()), accepted)
    {
      hide S.Accepted, S.Settle;
      if accepted {
        Accept();
      } else {
        Reject();
      }
    }

    method Accept()
      modifies this
      ensures Now() == S.Accepted(old(Now()))
    {
      ClearPending();
      tries, retryDelay, inProgress, restart := 0, 0, false, true;
    }

    method Reject()
      modifies this
      ensures Now() == S.Settle(old(Now()).(rejected := old(available))).(inProgress := false)
    {
      hide S.Settle;
      rejected := available;
      Settle();
      inProgress := false;
    }

    method Tick(now: Word, e: Env, current: string)
      modifies this
      ensures Now() == S.Tick(old(Now()), now, e, current)
    {
      hide S.StreamChunk, S.Pump, S.Start;
      if inProgress {
        StreamChunk(now, e);
      } else if stage != Idle {
        Pump(now, e, e.replies, current);
      } else if !restart && e.connected && (nextRetry == 0 || now >= nextRetry) {
        Start(now, e, current);
      }
    }

    method Start(now: Word, e: Env, current: string)
      modifies this
      ensures Now() == S.Start(old(Now()), now, e, current)
    {
      hide S.Download, S.CheckNow, S.AutoCheckDue;
      if wantInstall {
        Install(now, e, current);
        return;
      }
      if wantCheck {
        CheckAsked(now, e, current);
        return;
      }
      var due := CheckDue(now);
      if due {
        CheckOnTime(now, e, current);
      }
    }

    method Install(now: Word, e: Env, current: string)
      modifies this
      ensures Now() == S.Download(old(Now()).(wantInstall := false, nextRetry := 0), now, e, e.replies, current)
    {
      hide S.Download;
      wantInstall, nextRetry := false, 0;
      Download(now, e, e.replies, current);
    }

    method CheckAsked(now: Word, e: Env, current: string)
      modifies this
      ensures Now() == S.CheckNow(old(Now()).(wantCheck := false, nextRetry := 0), now, old(slim), e, current)
    {
      hide S.CheckNow;
      wantCheck, nextRetry := false, 0;
      Check(now, slim, e, current);
    }

    method CheckOnTime(now: Word, e: Env, current: string)
      modifies this
      ensures Now() == S.CheckNow(old(Now()).(lastCheck := now, nextRetry := 0), now, true, e, current)
    {
      hide S.CheckNow;
      lastCheck, nextRetry := now, 0;
      Check(now, true, e, current);
    }

    method CheckDue(now: Word) returns (due: bool)
      ensures due == S.AutoCheckDue(Now(), now)
    {
      if !automatic || now >= DEADLINE {
        return false;
      }
      if lastCheck == 0 {
        return now >= FIRST_CHECK;
      }
      due := Since(now, lastCheck) >= CHECK_INTERVAL;
    }
  }
}
