/**
 The backend library (backend/leetcode_api.py): reading the recent accepted
 submissions of a user, reading the problem set, and drawing a contest from it.
 The GraphQL requests are not modelled: each response is an input, `None`
 standing for every path that ends in the library's `except` clause or in a
 non-200 status.
 */
module LeetcodeApi {

  import opened Wrappers
  import opened Sequences
  import opened Problems

  // ---------------------------------------------------------------------
  // check_recent_submissions
  // ---------------------------------------------------------------------

  /** One entry of the user's recent accepted submissions. */
  datatype Submission = Submission(titleSlug: string, timestamp: int)

  /** A submission counts when it is for a contest problem and strictly after the start. */
  predicate Qualifies(sub: Submission, problemSlugs: seq<string>, contestStart: int)
  {
    sub.titleSlug in problemSlugs && sub.timestamp > contestStart
  }

  /**
   The `updates` dictionary after the filtering loop has visited `subs` in list
   order. Every key is a contest problem solved strictly after the start.
   */
  function Updates(subs: seq<Submission>, problemSlugs: seq<string>, contestStart: int): (updates: map<string, int>)
    ensures forall slug :: slug in updates ==> slug in problemSlugs && updates[slug] > contestStart
  {
    if subs == [] then map[]
    else
      var prior := Updates(subs[..|subs| - 1], problemSlugs, contestStart);
      var sub := subs[|subs| - 1];
      if Qualifies(sub, problemSlugs, contestStart) then prior[sub.titleSlug := sub.timestamp] else prior
  }

  /**
   The solve map for a contest: for an empty username or a failed request it is
   empty; otherwise it is what the loop over the submission list builds.
   */
  method CheckRecentSubmissions(
    username: string,
    problemSlugs: seq<string>,
    contestStart: int,
    response: Option<seq<Submission>>)
    returns (updates: map<string, int>)
    ensures username == "" || response.None? ==> updates == map[]
    ensures username != "" && response.Some? ==>
              updates == Updates(response.value, problemSlugs, contestStart)
  {
    if username == "" {
      return map[];
    }
    if response.None? {
      return map[];
    }
    var submissions := response.value;
    updates := map[];
    for i := 0 to |submissions|
      invariant updates == Updates(submissions[..i], problemSlugs, contestStart)
    {
      var sub := submissions[i];
      assert submissions[..i + 1][..i] == submissions[..i];
      if sub.titleSlug in problemSlugs && sub.timestamp > contestStart {
        updates := updates[sub.titleSlug := sub.timestamp];
      }
    }
    assert submissions[..|submissions|] == submissions;
  }

  /** Submission `i` is the last one in `subs` that qualifies for its slug. */
  ghost predicate LastQualifyingAt(subs: seq<Submission>, i: int, problemSlugs: seq<string>, contestStart: int)
  {
    && 0 <= i < |subs|
    && Qualifies(subs[i], problemSlugs, contestStart)
    && forall j :: i < j < |subs| && subs[j].titleSlug == subs[i].titleSlug ==>
         !Qualifies(subs[j], problemSlugs, contestStart)
  }

  /**
   A slug is in the solve map exactly when some submission for it qualifies, and
   its value is the timestamp of the last qualifying one: later entries overwrite.
   */
  lemma {:induction false} UpdatesLastWins(subs: seq<Submission>, problemSlugs: seq<string>, contestStart: int, slug: string)
    ensures slug in Updates(subs, problemSlugs, contestStart) <==>
              exists i :: 0 <= i < |subs| && subs[i].titleSlug == slug && Qualifies(subs[i], problemSlugs, contestStart)
    ensures slug in Updates(subs, problemSlugs, contestStart) ==>
              exists i :: LastQualifyingAt(subs, i, problemSlugs, contestStart) && subs[i].titleSlug == slug
                          && Updates(subs, problemSlugs, contestStart)[slug] == subs[i].timestamp
  {
    if subs != [] {
      var init := subs[..|subs| - 1];
      var last := |subs| - 1;
      UpdatesLastWins(init, problemSlugs, contestStart, slug);
      assert forall i :: 0 <= i < |init| ==> init[i] == subs[i];
      if subs[last].titleSlug == slug && Qualifies(subs[last], problemSlugs, contestStart) {
        assert LastQualifyingAt(subs, last, problemSlugs, contestStart);
      } else if slug in Updates(init, problemSlugs, contestStart) {
        var i :| LastQualifyingAt(init, i, problemSlugs, contestStart) && init[i].titleSlug == slug
                 && Updates(init, problemSlugs, contestStart)[slug] == init[i].timestamp;
        assert LastQualifyingAt(subs, i, problemSlugs, contestStart);
      }
    }
  }

  // ---------------------------------------------------------------------
  // get_problems_with_status
  // ---------------------------------------------------------------------

  /** The paid-only test of the comprehension, as a function value for `Filter`. */
  predicate IsFree(q: Question) { !q.isPaidOnly }

  /**
   The problem list of a fetched question-list response: the free questions in
   the service's order; nothing when the request failed.
   */
  function GetProblemsWithStatus(response: Option<seq<Question>>): (r: seq<Question>)
    ensures response.None? ==> r == []
    ensures response.Some? ==> forall q :: q in r <==> q in response.value && !q.isPaidOnly
  {
    match response
    case None => []
    case Some(questions) => Filter(questions, IsFree)
  }

  /**
   The paid-only filter keeps the order of the free questions: the list of a
   concatenated response is the concatenation of the lists of its parts, and a
   response with no paid question comes back unchanged.
   */
  lemma GetProblemsKeepsOrder(a: seq<Question>, b: seq<Question>)
    ensures GetProblemsWithStatus(Some(a + b)) == GetProblemsWithStatus(Some(a)) + GetProblemsWithStatus(Some(b))
    ensures (forall q :: q in a ==> !q.isPaidOnly) ==> GetProblemsWithStatus(Some(a)) == a
  {
    FilterDistributes(a, b, IsFree);
    if forall q :: q in a ==> !q.isPaidOnly {
      FilterKeepsAll(a, IsFree);
    }
  }

  // ---------------------------------------------------------------------
  // generate_contest
  // ---------------------------------------------------------------------

  /** Some topic tag of `p` is among the selected tag slugs. */
  predicate HasSelectedTag(p: Question, tags: seq<string>)
  {
    exists k :: 0 <= k < |p.topicTags| && p.topicTags[k].slug in tags
  }

  function TaggedWith(tags: seq<string>): Question -> bool
  {
    (p: Question) => HasSelectedTag(p, tags)
  }

  /** Step 1: an empty tag selection filters nothing; otherwise keep the problems with a selected tag. */
  function TagFilter(problems: seq<Question>, tags: seq<string>): (r: seq<Question>)
    ensures tags != [] ==> forall p :: p in r <==> p in problems && HasSelectedTag(p, tags)
    ensures tags == [] ==> r == problems
  {
    if tags != [] then Filter(problems, TaggedWith(tags)) else problems
  }

  predicate IsAccepted(p: Question) { p.status == Some("ac") }

  /** Step 2: mode "solved" keeps accepted problems, "unsolved" the others, any other mode all. */
  function StatusFilter(problems: seq<Question>, mode: string): (r: seq<Question>)
    ensures mode == "solved" ==> forall p :: p in r <==> p in problems && IsAccepted(p)
    ensures mode == "unsolved" ==> forall p :: p in r <==> p in problems && !IsAccepted(p)
    ensures mode != "solved" && mode != "unsolved" ==> r == problems
  {
    if mode == "solved" then Filter(problems, IsAccepted)
    else if mode == "unsolved" then Filter(problems, (p: Question) => !IsAccepted(p))
    else problems
  }

  /** The problems a contest is drawn from, after the tag and status filters. */
  function Pool(problems: seq<Question>, tags: seq<string>, mode: string): seq<Question>
  {
    StatusFilter(TagFilter(problems, tags), mode)
  }

  function DifficultyIs(d: Difficulty): Question -> bool
  {
    (p: Question) => p.difficulty == d
  }

  /** Step 3: the problems of one difficulty, in pool order. */
  function OfDifficulty(problems: seq<Question>, d: Difficulty): (r: seq<Question>)
    ensures forall p :: p in r <==> p in problems && p.difficulty == d
  {
    Filter(problems, DifficultyIs(d))
  }

  /** How many problems of each difficulty a contest asks for. */
  function Wanted(d: Difficulty): nat
  {
    match d
    case Easy => 1
    case Medium => 2
    case Hard => 1
  }

  function Quota(available: nat, wanted: nat): nat
  {
    if available < wanted then available else wanted
  }

  /** Position of a difficulty in the contest's order. */
  function Rank(d: Difficulty): nat
  {
    match d
    case Easy => 0
    case Medium => 1
    case Hard => 2
  }

  /** One problem drawn from `easy` when it is non-empty (`random.choice`), else none. */
  ghost predicate EasyPart(e: seq<Question>, easy: seq<Question>)
  {
    |e| == Quota(|easy|, 1) && forall i :: 0 <= i < |e| ==> e[i] in easy
  }

  /**
   Two problems at distinct positions of `medium` when it has two or more
   (`random.sample(medium, 2)`), else all of `medium`.
   */
  ghost predicate MediumPart(m: seq<Question>, medium: seq<Question>)
  {
    if |medium| >= 2
    then |m| == 2 && exists i, j :: 0 <= i < |medium| && 0 <= j < |medium| && i != j && m[0] == medium[i] && m[1] == medium[j]
    else m == medium
  }

  /** One problem drawn from `hard` when it is non-empty (`random.choice`), else none. */
  ghost predicate HardPart(h: seq<Question>, hard: seq<Question>)
  {
    |h| == Quota(|hard|, 1) && forall i :: 0 <= i < |h| ==> h[i] in hard
  }

  /** The shape of step 4's result: the Easy part, then the Medium part, then the Hard part. */
  ghost predicate ContestShape(c: seq<Question>, easy: seq<Question>, medium: seq<Question>, hard: seq<Question>)
  {
    var ne := Quota(|easy|, 1);
    var nm := Quota(|medium|, 2);
    && |c| == ne + nm + Quota(|hard|, 1)
    && EasyPart(c[..ne], easy)
    && MediumPart(c[ne..ne + nm], medium)
    && HardPart(c[ne + nm..], hard)
  }

  /**
   Draws a contest. `random.choice` and `random.sample` are modelled as
   nondeterministic choices of positions in the pools.
   */
  method GenerateContest(problems: seq<Question>, tags: seq<string>, mode: string)
    returns (contestSet: seq<Question>)
    ensures ContestShape(contestSet,
                         OfDifficulty(Pool(problems, tags, mode), Easy),
                         OfDifficulty(Pool(problems, tags, mode), Medium),
                         OfDifficulty(Pool(problems, tags, mode), Hard))
  {
    var pool := TagFilter(problems, tags);
    pool := StatusFilter(pool, mode);
    var easy := OfDifficulty(pool, Easy);
    var medium := OfDifficulty(pool, Medium);
    var hard := OfDifficulty(pool, Hard);

    contestSet := PickContest(easy, medium, hard);
  }

  /**
   Step 4: `contest_set` grows by successive appends. The ghost variables e, m
   and h record what each step appends.
   */
  method PickContest(easy: seq<Question>, medium: seq<Question>, hard: seq<Question>)
    returns (contestSet: seq<Question>)
    ensures ContestShape(contestSet, easy, medium, hard)
  {
    contestSet := [];
    ghost var e, m, h := [], [], [];
    if |easy| > 0 {
      var i :| 0 <= i < |easy|;
      contestSet := contestSet + [easy[i]];
      e := [easy[i]];
    }
    if |medium| >= 2 {
      assert 0 <= 0 < |medium| && 0 <= 1 < |medium|;
      var i, j :| 0 <= i < |medium| && 0 <= j < |medium| && i != j;
      contestSet := contestSet + [medium[i], medium[j]];
      m := [medium[i], medium[j]];
    } else if |medium| > 0 {
      contestSet := contestSet + medium;
      m := medium;
    }
    if |hard| > 0 {
      var i :| 0 <= i < |hard|;
      contestSet := contestSet + [hard[i]];
      h := [hard[i]];
    }
    assert contestSet == e + m + h;
    ShapeFromParts(e, m, h, easy, medium, hard);
  }

  lemma ShapeFromParts(e: seq<Question>, m: seq<Question>, h: seq<Question>,
                       easy: seq<Question>, medium: seq<Question>, hard: seq<Question>)
    requires EasyPart(e, easy) && MediumPart(m, medium) && HardPart(h, hard)
    ensures ContestShape(e + m + h, easy, medium, hard)
  {
    var c := e + m + h;
    assert c[..|e|] == e;
    assert c[|e|..|e| + |m|] == m;
    assert c[|e| + |m|..] == h;
  }

  /** Filtering a sequence whose elements all have difficulty `d` keeps all or nothing. */
  lemma OfDifficultyUniform(s: seq<Question>, d: Difficulty, e: Difficulty)
    requires forall p :: p in s ==> p.difficulty == d
    ensures |OfDifficulty(s, e)| == if e == d then |s| else 0
  {
    if e == d {
      FilterKeepsAll(s, DifficultyIs(e));
    } else {
      FilterDropsAll(s, DifficultyIs(e));
    }
  }

  /** A contest of this shape splits into its Easy, Medium and Hard parts. */
  lemma ShapeParts(c: seq<Question>, easy: seq<Question>, medium: seq<Question>, hard: seq<Question>)
    returns (e: seq<Question>, m: seq<Question>, h: seq<Question>)
    requires ContestShape(c, easy, medium, hard)
    ensures c == e + m + h
    ensures |e| == Quota(|easy|, 1) && |m| == Quota(|medium|, 2) && |h| == Quota(|hard|, 1)
    ensures forall p :: p in e ==> p in easy
    ensures forall p :: p in m ==> p in medium
    ensures forall p :: p in h ==> p in hard
  {
    var ne, nm := Quota(|easy|, 1), Quota(|medium|, 2);
    e, m, h := c[..ne], c[ne..ne + nm], c[ne + nm..];
    assert c == e + m + h;
    if |medium| >= 2 {
      var i, j :| 0 <= i < |medium| && 0 <= j < |medium| && i != j && m[0] == medium[i] && m[1] == medium[j];
      assert m == [medium[i], medium[j]];
    }
    forall p | p in e ensures p in easy {
      var i :| 0 <= i < |e| && e[i] == p;
    }
    forall p | p in h ensures p in hard {
      var i :| 0 <= i < |h| && h[i] == p;
    }
  }

  /** The difficulty at each position of a contest of this shape: Easy, then Medium, then Hard. */
  lemma ContestDifficulties(pool: seq<Question>, c: seq<Question>)
    requires ContestShape(c, OfDifficulty(pool, Easy), OfDifficulty(pool, Medium), OfDifficulty(pool, Hard))
    ensures |c| <= 4
    ensures forall i :: 0 <= i < |c| ==> c[i] in pool
    ensures forall i :: 0 <= i < |c| ==>
              c[i].difficulty == if i < Quota(|OfDifficulty(pool, Easy)|, 1) then Easy
                                 else if i < Quota(|OfDifficulty(pool, Easy)|, 1) + Quota(|OfDifficulty(pool, Medium)|, 2) then Medium
                                 else Hard
  {
    var easy, medium, hard := OfDifficulty(pool, Easy), OfDifficulty(pool, Medium), OfDifficulty(pool, Hard);
    var e, m, h := ShapeParts(c, easy, medium, hard);
    forall i | 0 <= i < |c|
      ensures c[i] in pool
      ensures c[i].difficulty == if i < |e| then Easy else if i < |e| + |m| then Medium else Hard
    {
      if i < |e| {
        assert c[i] == e[i] && e[i] in e;
        assert c[i] in easy;
      } else if i < |e| + |m| {
        assert c[i] == m[i - |e|] && m[i - |e|] in m;
        assert c[i] in medium;
      } else {
        assert c[i] == h[i - |e| - |m|] && h[i - |e| - |m|] in h;
        assert c[i] in hard;
      }
    }
  }

  /**
   A contest of this shape has at most four problems, all from the pool, with
   Easy before Medium before Hard.
   */
  lemma ContestOrder(pool: seq<Question>, c: seq<Question>)
    requires ContestShape(c, OfDifficulty(pool, Easy), OfDifficulty(pool, Medium), OfDifficulty(pool, Hard))
    ensures |c| <= 4
    ensures forall p :: p in c ==> p in pool
    ensures forall i, j :: 0 <= i < j < |c| ==> Rank(c[i].difficulty) <= Rank(c[j].difficulty)
  {
    ContestDifficulties(pool, c);
  }

  /**
   A contest of this shape holds of each difficulty exactly as many problems as
   that difficulty's quota allows: a difficulty appears exactly when its pool is
   non-empty, and two Medium problems appear exactly when two exist.
   */
  lemma ContestCounts(pool: seq<Question>, c: seq<Question>, d: Difficulty)
    requires ContestShape(c, OfDifficulty(pool, Easy), OfDifficulty(pool, Medium), OfDifficulty(pool, Hard))
    ensures |OfDifficulty(c, d)| == Quota(|OfDifficulty(pool, d)|, Wanted(d))
  {
    var e, m, h := ShapeParts(c, OfDifficulty(pool, Easy), OfDifficulty(pool, Medium), OfDifficulty(pool, Hard));
    FilterDistributes(e + m, h, DifficultyIs(d));
    FilterDistributes(e, m, DifficultyIs(d));
    OfDifficultyUniform(e, Easy, d);
    OfDifficultyUniform(m, Medium, d);
    OfDifficultyUniform(h, Hard, d);
  }

  /**
   Every problem of a generated contest is a member of the input list that
   passes the filters: it carries a selected tag when tags were
   selected, is accepted in mode "solved" and not accepted in mode "unsolved".
   */
  lemma ContestRespectsFilters(problems: seq<Question>, tags: seq<string>, mode: string, c: seq<Question>)
    requires ContestShape(c,
                          OfDifficulty(Pool(problems, tags, mode), Easy),
                          OfDifficulty(Pool(problems, tags, mode), Medium),
                          OfDifficulty(Pool(problems, tags, mode), Hard))
    ensures forall p :: p in c ==> p in problems
    ensures tags != [] ==> forall p :: p in c ==> HasSelectedTag(p, tags)
    ensures mode == "solved" ==> forall p :: p in c ==> IsAccepted(p)
    ensures mode == "unsolved" ==> forall p :: p in c ==> !IsAccepted(p)
  {
    ContestOrder(Pool(problems, tags, mode), c);
  }
}
