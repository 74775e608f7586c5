/**
 The contest page's component state (frontend/src/App.jsx) as an object whose
 fields are the React state variables; each handler and effect is a method
 that updates them. The browser's saved CONTEST_STATE item is the field
 `saved`; requests, the clock and the interval timer are parameters.
 */
module ContestApp {

  import opened Wrappers
  import opened Problems
  import opened Scoreboard
  import LeetcodeApi

  /** The contest length in seconds (90 minutes). */
  const ContestSeconds: nat := 5400

  /** Which of the three views the page shows. */
  datatype Phase = Configuring | Active | Finished

  /** The CONTEST_STATE record written while a contest is active or finished. */
  datatype SavedRecord = SavedRecord(
    contest: seq<Question>,
    startTime: int,
    endTime: int,
    isActive: bool,
    isFinished: bool,
    progress: Progress,
    mode: Option<string>)

  /** The create-contest response: the problems and the server's start time in seconds. */
  datatype CreateResponse = CreateResponse(contest: seq<Question>, serverTime: int)

  /** The status-check request: who, which problems, and since when. */
  datatype StatusRequest = StatusRequest(username: string, problemSlugs: seq<string>, contestStartTime: int)

  /** How a press of the start button ends: an alert for either failure. */
  datatype StartOutcome = Started | MissingUsername | RequestFailed

  /** The phase the page comes up in, given the saved record and the clock at load time. */
  function ResumedPhase(saved: Option<SavedRecord>, now: int): (phase: Phase)
    ensures phase == Active <==> saved.Some? && saved.value.isActive && saved.value.endTime > now
    ensures phase == Finished <==>
              saved.Some? && saved.value.isFinished && !(saved.value.isActive && saved.value.endTime > now)
    ensures saved.None? ==> phase == Configuring
  {
    match saved
    case None => Configuring
    case Some(r) =>
      if r.isActive && r.endTime > now then Active
      else if r.isFinished then Finished
      else Configuring
  }

  /** `parsed.mode || "all"`: a missing or empty mode reads as "all". */
  function ModeOrAll(mode: Option<string>): (r: string)
    ensures r != ""
    ensures mode.None? || mode.value == "" ==> r == "all"
    ensures mode.Some? && mode.value != "" ==> r == mode.value
  {
    match mode
    case Some(m) => if m != "" then m else "all"
    case None => "all"
  }

  /** `contest.map(p => p.titleSlug)`: the slugs a status check asks about. */
  function ContestSlugs(contest: seq<Question>): (slugs: seq<string>)
    ensures |slugs| == |contest|
    ensures forall i :: 0 <= i < |contest| ==> slugs[i] == contest[i].titleSlug
  {
    if contest == [] then [] else [contest[0].titleSlug] + ContestSlugs(contest[1..])
  }

  /**
   A poll answered by the backend's solve map only adds entries for contest
   problems, each solved strictly after the start and so with a non-negative
   whole number of minutes.
   */
  lemma PollAddsOnlyContestProblems(
    contest: seq<Question>,
    prev: Progress,
    subs: seq<LeetcodeApi.Submission>,
    startTime: int)
    ensures var solvedMap := LeetcodeApi.Updates(subs, ContestSlugs(contest), startTime);
            var next := Merged(prev, solvedMap, startTime);
            forall slug :: slug in next && slug !in prev ==>
              && (exists i :: 0 <= i < |contest| && contest[i].titleSlug == slug)
              && next[slug].solved
              && next[slug].timeTaken * 60 <= solvedMap[slug] - startTime
  {
    var slugs := ContestSlugs(contest);
    var solvedMap := LeetcodeApi.Updates(subs, slugs, startTime);
    forall slug | slug in solvedMap
      ensures exists i :: 0 <= i < |contest| && contest[i].titleSlug == slug
    {
      var i :| 0 <= i < |slugs| && slugs[i] == slug;
    }
  }

  class App {
    // configuration
    var username: string
    var mode: string
    var selectedTags: seq<string>
    var showConfig: bool
    // contest
    var contest: seq<Question>
    var startTime: int
    var endTime: int
    var timeLeft: int
    var isActive: bool
    var isFinished: bool
    var progress: Progress
    // the saved CONTEST_STATE item
    var saved: Option<SavedRecord>

    /**
     The page shows exactly one view: active and finished never hold together,
     the configuration view shows exactly when neither does, and the clock is
     never negative.
     */
    ghost predicate Valid()
      reads this
    {
      && !(isActive && isFinished)
      && showConfig == (!isActive && !isFinished)
      && timeLeft >= 0
    }

    function CurrentPhase(): Phase
      reads this
    {
      if isActive then Active else if isFinished then Finished else Configuring
    }

    /** The record the save effect writes. */
    function Snapshot(): SavedRecord
      reads this
    {
      SavedRecord(contest, startTime, endTime, isActive, isFinished, progress, Some(mode))
    }

    /** The initial state of every `useState`; the stored username and record are inputs. */
    constructor (storedUsername: string, storedRecord: Option<SavedRecord>)
      ensures Valid() && CurrentPhase() == Configuring
      ensures username == storedUsername && mode == "all" && selectedTags == []
      ensures contest == [] && startTime == 0 && endTime == 0 && timeLeft == ContestSeconds
      ensures progress == map[] && saved == storedRecord
    {
      username := storedUsername;
      mode := "all";
      selectedTags := [];
      showConfig := true;
      contest := [];
      startTime := 0;
      endTime := 0;
      timeLeft := ContestSeconds;
      isActive := false;
      isFinished := false;
      progress := map[];
      saved := storedRecord;
    }

    /**
     The load effect, run once on mount: an active record whose end lies in the
     future resumes the contest with the whole seconds left; otherwise a
     finished record shows its results; otherwise (no record, or an active one
     that has expired) the configuration view stays.
     */
    method Resume(now: int)
      requires Valid() && !isActive && !isFinished
      modifies this
      ensures Valid()
      ensures CurrentPhase() == ResumedPhase(saved, now)
      ensures saved == old(saved) && username == old(username) && selectedTags == old(selectedTags)
      ensures ResumedPhase(saved, now) == Active ==>
                && contest == saved.value.contest && progress == saved.value.progress
                && startTime == saved.value.startTime && endTime == saved.value.endTime
                && mode == ModeOrAll(saved.value.mode)
                && timeLeft == (saved.value.endTime - now) / 1000
                && timeLeft == RemainingSeconds(endTime, now)
      ensures ResumedPhase(saved, now) == Finished ==>
                && contest == saved.value.contest && progress == saved.value.progress
                && startTime == old(startTime) && endTime == old(endTime)
                && mode == old(mode) && timeLeft == old(timeLeft)
      ensures ResumedPhase(saved, now) == Configuring ==>
                && contest == old(contest) && progress == old(progress)
                && startTime == old(startTime) && endTime == old(endTime)
                && mode == old(mode) && timeLeft == old(timeLeft)
    {
      if saved.Some? {
        var parsed := saved.value;
        if parsed.isActive && parsed.endTime > now {
          contest := parsed.contest;
          startTime := parsed.startTime;
          endTime := parsed.endTime;
          isActive := true;
          showConfig := false;
          progress := parsed.progress;
          mode := ModeOrAll(parsed.mode);
          timeLeft := (parsed.endTime - now) / 1000;
        } else if parsed.isFinished {
          contest := parsed.contest;
          isFinished := true;
          showConfig := false;
          progress := parsed.progress;
        }
      }
    }

    /** The save effect: while active or finished, the saved record mirrors the state. */
    method Persist()
      modifies this`saved
      ensures saved == if isActive || isFinished then Some(Snapshot()) else old(saved)
    {
      if isActive || isFinished {
        saved := Some(Snapshot());
      }
    }

    /**
     startContest: without a username, or when the create request fails, nothing
     changes; otherwise a fresh 90-minute contest starts with empty progress.
     `now` is the clock when the response arrives.
     */
    method StartContest(response: Option<CreateResponse>, now: int) returns (outcome: StartOutcome)
      requires Valid()
      modifies this
      ensures Valid()
      ensures username == "" ==> outcome == MissingUsername
      ensures username != "" && response.None? ==> outcome == RequestFailed
      ensures outcome != Started ==> unchanged(this)
      ensures outcome == Started <==> username != "" && response.Some?
      ensures outcome == Started ==>
                && CurrentPhase() == Active
                && contest == response.value.contest && startTime == response.value.serverTime
                && endTime == now + ContestSeconds * 1000 && timeLeft == ContestSeconds
                && progress == map[]
                && username == old(username) && mode == old(mode)
                && selectedTags == old(selectedTags) && saved == old(saved)
    {
      if username == "" {
        return MissingUsername;
      }
      if response.None? {
        return RequestFailed;
      }
      var res := response.value;
      contest := res.contest;
      startTime := res.serverTime;
      endTime := now + ContestSeconds * 1000;
      timeLeft := ContestSeconds;
      progress := map[];
      isActive := true;
      isFinished := false;
      showConfig := false;
      outcome := Started;
    }

    /**
     checkSubmissions, up to the request: only an active page sends one, asking
     about the contest's slugs since the start time.
     */
    method CheckSubmissions() returns (request: Option<StatusRequest>)
      ensures isActive ==> request == Some(StatusRequest(username, ContestSlugs(contest), startTime))
      ensures !isActive ==> request == None
    {
      if !isActive {
        return None;
      }
      var slugs := ContestSlugs(contest);
      request := Some(StatusRequest(username, slugs, startTime));
    }

    /**
     checkSubmissions, when the response arrives: a failed request changes
     nothing; a solve map is merged first-solve-wins into the current progress,
     with times measured from the start time the request was sent with. Nothing
     here looks at the phase, so a late response still lands after the finish.
     */
    method ApplyStatusResponse(request: StatusRequest, response: Option<map<string, int>>)
      modifies this`progress
      ensures progress == if response.Some?
                          then Merged(old(progress), response.value, request.contestStartTime)
                          else old(progress)
    {
      if response.Some? {
        progress := MergeStatus(progress, response.value, request.contestStartTime);
      }
    }

    /**
     One run of the interval callback, which exists only while the contest is
     active with time left: recompute the whole seconds left and report whether
     a status check is due.
     */
    method IntervalTick(now: int) returns (checkDue: bool)
      requires Valid() && isActive && timeLeft > 0
      modifies this`timeLeft
      ensures Valid()
      ensures timeLeft == RemainingSeconds(endTime, now)
      ensures checkDue <==> timeLeft > 0 && timeLeft % 15 == 0
    {
      var secondsRemaining := RemainingSeconds(endTime, now);
      timeLeft := secondsRemaining;
      checkDue := PollDue(secondsRemaining);
    }

    /** The timer effect's other branch: an active contest out of time finishes itself. */
    method RunTimerEffect()
      requires Valid()
      modifies this`isActive, this`isFinished
      ensures Valid()
      ensures old(isActive) && old(timeLeft) <= 0 ==> CurrentPhase() == Finished
      ensures !(old(isActive) && old(timeLeft) <= 0) ==> unchanged(this)
    {
      if isActive && timeLeft <= 0 {
        FinishContest();
      }
    }

    /** finishContest: from the active view (its only callers) to the results view. */
    method FinishContest()
      requires Valid() && isActive
      modifies this`isActive, this`isFinished
      ensures Valid()
      ensures !isActive && isFinished && CurrentPhase() == Finished
    {
      isActive := false;
      isFinished := true;
    }

    /**
     resetTool: clear the saved record and go back to the configuration view
     with no contest and a full clock. Progress and the start and end times are
     left as they were.
     */
    method ResetTool()
      requires Valid()
      modifies this
      ensures Valid() && CurrentPhase() == Configuring
      ensures saved == None && contest == [] && timeLeft == ContestSeconds
      ensures progress == old(progress) && startTime == old(startTime) && endTime == old(endTime)
      ensures username == old(username) && mode == old(mode) && selectedTags == old(selectedTags)
    {
      saved := None;
      isActive := false;
      isFinished := false;
      showConfig := true;
      contest := [];
      timeLeft := ContestSeconds;
    }

    /** toggleTag: flip one tag slug in the selection. */
    method ToggleTag(slug: string)
      modifies this`selectedTags
      ensures selectedTags == ToggledTags(old(selectedTags), slug)
    {
      selectedTags := ToggledTags(selectedTags, slug);
    }
  }

  /**
   The running part of a session: start, a poll answered twice, the last tick,
   the automatic finish and saving. The stored record is finished, holds the
   contest, and has the Medium problem solved after 10 minutes; the second
   answer did not overwrite the first solve.
   */
  method PlaySession(easy: Question, medium: Question, hard: Question, t0: int)
    returns (saved: Option<SavedRecord>, endTime: int)
    requires easy.titleSlug != medium.titleSlug
    ensures saved.Some? && saved.value.isFinished && !saved.value.isActive
    ensures saved.value.contest == [easy, medium, hard]
    ensures saved.value.progress == map[medium.titleSlug := ProgressEntry(true, 10)]
  {
    var app := new App("alice", None);
    var outcome := app.StartContest(Some(CreateResponse([easy, medium, hard], t0)), 1000 * t0);
    assert outcome == Started && app.CurrentPhase() == Active;

    var request := app.CheckSubmissions();
    assert request.Some? && request.value.contestStartTime == t0 && request.value.problemSlugs[1] == medium.titleSlug;
    app.ApplyStatusResponse(request.value, Some(map[medium.titleSlug := t0 + 600]));
    assert app.progress == map[medium.titleSlug := ProgressEntry(true, 10)];
    app.ApplyStatusResponse(request.value, Some(map[medium.titleSlug := t0 + 1200]));
    assert app.progress == map[medium.titleSlug := ProgressEntry(true, 10)];

    var due := app.IntervalTick(app.endTime);
    assert app.timeLeft == 0 && !due;
    app.RunTimerEffect();
    assert app.CurrentPhase() == Finished;
    app.Persist();
    saved, endTime := app.saved, app.endTime;
  }

  /**
   A whole session: PlaySession, then a reload that shows the results, a reset,
   and a reload that comes up in the configuration view. The results screen
   shows 5 of 15 points.
   */
  method Session(easy: Question, medium: Question, hard: Question, t0: int)
    returns (score: nat, fullMarks: nat, finalPhase: Phase)
    requires easy.difficulty == Easy && medium.difficulty == Medium && hard.difficulty == Hard
    requires easy.titleSlug != medium.titleSlug && hard.titleSlug != medium.titleSlug
    ensures score == 5 && fullMarks == 15
    ensures finalPhase == Configuring
  {
    var saved, endTime := PlaySession(easy, medium, hard, t0);

    var reloaded := new App("alice", saved);
    reloaded.Resume(endTime + 1);
    assert reloaded.CurrentPhase() == Finished;
    ScoreExample(easy, medium, hard, 10);
    score := TotalScore(reloaded.contest, reloaded.progress);
    fullMarks := FullMarks(reloaded.contest);

    reloaded.ResetTool();
    var restarted := new App("alice", reloaded.saved);
    restarted.Resume(endTime + 2);
    finalPhase := restarted.CurrentPhase();
  }
}
