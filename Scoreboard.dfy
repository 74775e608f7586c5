/**
 The pure logic of the contest page (frontend/src/App.jsx): the point table,
 the score, the first-solve-wins merge of a status poll, tag toggling, clock
 formatting and the countdown arithmetic.
 */
module Scoreboard {

  import opened Sequences
  import opened Problems
  import opened Decimal

  // ---------------------------------------------------------------------
  // Points and score
  // ---------------------------------------------------------------------

  /** POINTS: Easy = 3, Medium = 5, Hard = 7. */
  function Points(d: Difficulty): (points: nat)
    ensures d == Easy ==> points == 3
    ensures d == Medium ==> points == 5
    ensures d == Hard ==> points == 7
  {
    match d
    case Easy => 3
    case Medium => 5
    case Hard => 7
  }

  /** What the page knows about one problem: solved, and after how many minutes. */
  datatype ProgressEntry = ProgressEntry(solved: bool, timeTaken: int)

  type Progress = map<string, ProgressEntry>

  /** `progress[slug]?.solved`: an absent slug counts as unsolved. */
  predicate IsSolved(progress: Progress, slug: string)
  {
    slug in progress && progress[slug].solved
  }

  function SolvedIn(progress: Progress): Question -> bool
  {
    (p: Question) => IsSolved(progress, p.titleSlug)
  }

  /** The results screen's "out of" figure: the points of every contest problem. */
  function FullMarks(contest: seq<Question>): (total: nat)
    ensures 3 * |contest| <= total <= 7 * |contest|
  {
    if contest == [] then 0
    else FullMarks(contest[..|contest| - 1]) + Points(contest[|contest| - 1].difficulty)
  }

  /**
   calculateTotalScore: the left fold over the contest that adds a problem's
   points when its progress entry is solved. It never exceeds the full marks.
   */
  function TotalScore(contest: seq<Question>, progress: Progress): (score: nat)
    ensures score <= FullMarks(contest)
  {
    if contest == [] then 0
    else
      var p := contest[|contest| - 1];
      TotalScore(contest[..|contest| - 1], progress) + (if IsSolved(progress, p.titleSlug) then Points(p.difficulty) else 0)
  }

  lemma {:induction false} FullMarksAppend(a: seq<Question>, b: seq<Question>)
    ensures FullMarks(a + b) == FullMarks(a) + FullMarks(b)
  {
    if b != [] {
      assert (a + b)[..|a + b| - 1] == a + b[..|b| - 1];
      FullMarksAppend(a, b[..|b| - 1]);
    } else {
      assert a + b == a;
    }
  }

  /** The score is the sum of the points of exactly the solved contest problems. */
  lemma {:induction false} TotalScoreSumsSolved(contest: seq<Question>, progress: Progress)
    ensures TotalScore(contest, progress) == FullMarks(Filter(contest, SolvedIn(progress)))
  {
    if contest != [] {
      var init, last := contest[..|contest| - 1], contest[|contest| - 1];
      assert contest == init + [last];
      TotalScoreSumsSolved(init, progress);
      FilterDistributes(init, [last], SolvedIn(progress));
      FullMarksAppend(Filter(init, SolvedIn(progress)), Filter([last], SolvedIn(progress)));
      assert [last][1..] == [];
    }
  }

  /** Solving every problem earns full marks; solving none earns nothing. */
  lemma AllOrNothing(contest: seq<Question>, progress: Progress)
    ensures (forall p :: p in contest ==> IsSolved(progress, p.titleSlug)) ==> TotalScore(contest, progress) == FullMarks(contest)
    ensures (forall p :: p in contest ==> !IsSolved(progress, p.titleSlug)) ==> TotalScore(contest, progress) == 0
  {
    TotalScoreSumsSolved(contest, progress);
    if forall p :: p in contest ==> IsSolved(progress, p.titleSlug) {
      FilterKeepsAll(contest, SolvedIn(progress));
    }
    if forall p :: p in contest ==> !IsSolved(progress, p.titleSlug) {
      FilterDropsAll(contest, SolvedIn(progress));
    }
  }

  /** A progress map that solves at least what another solves scores at least as much. */
  lemma {:induction false} ScoreMonotone(contest: seq<Question>, before: Progress, after: Progress)
    requires forall slug :: IsSolved(before, slug) ==> IsSolved(after, slug)
    ensures TotalScore(contest, before) <= TotalScore(contest, after)
  {
    if contest != [] {
      ScoreMonotone(contest[..|contest| - 1], before, after);
    }
  }

  /** Easy, Medium and Hard problems with only the Medium one solved score 5 of 15. */
  lemma ScoreExample(easy: Question, medium: Question, hard: Question, solvedAfter: int)
    requires easy.difficulty == Easy && medium.difficulty == Medium && hard.difficulty == Hard
    requires easy.titleSlug != medium.titleSlug && hard.titleSlug != medium.titleSlug
    ensures TotalScore([easy, medium, hard], map[medium.titleSlug := ProgressEntry(true, solvedAfter)]) == 5
    ensures FullMarks([easy, medium, hard]) == 15
  {
    var c, progress := [easy, medium, hard], map[medium.titleSlug := ProgressEntry(true, solvedAfter)];
    assert c[..2] == [easy, medium] && [easy, medium][..1] == [easy] && [easy][..0] == [];
    assert TotalScore([easy], progress) == 0;
    assert TotalScore([easy, medium], progress) == 5;
    assert FullMarks([easy, medium]) == 8;
  }

  // ---------------------------------------------------------------------
  // Status-poll merge
  // ---------------------------------------------------------------------

  /**
   `Math.max(0, Math.floor((solvedAt - startTime) / 60))`: the whole minutes
   from the start to the solve, and zero for a solve stamped before the start.
   */
  function ElapsedMinutes(solvedAt: int, startTime: int): (minutes: nat)
    ensures solvedAt - startTime < 60 ==> minutes == 0
    ensures solvedAt - startTime >= 60 ==> 60 * minutes <= solvedAt - startTime < 60 * (minutes + 1)
  {
    var m := (solvedAt - startTime) / 60;
    if m < 0 then 0 else m
  }

  /**
   The progress map after a poll response, first solve wins: the keys are those
   of `prev` and of the response, an entry already present is kept as it is,
   and a slug seen for the first time becomes a solved entry with its whole
   minutes since the start (never negative).
   */
  function Merged(prev: Progress, solvedMap: map<string, int>, startTime: int): (next: Progress)
    ensures next.Keys == prev.Keys + solvedMap.Keys
    ensures forall slug :: slug in prev ==> next[slug] == prev[slug]
    ensures forall slug :: slug in solvedMap && slug !in prev ==>
              next[slug].solved && next[slug].timeTaken == ElapsedMinutes(solvedMap[slug], startTime)
  {
    map slug | slug in prev.Keys + solvedMap.Keys ::
      if slug in prev then prev[slug]
      else ProgressEntry(true, ElapsedMinutes(solvedMap[slug], startTime))
  }

  /**
   The updater passed to setProgress: copy `prev`, then walk the response's keys
   and add an entry for each slug not present yet.
   */
  method MergeStatus(prev: Progress, solvedMap: map<string, int>, startTime: int)
    returns (next: Progress)
    ensures next == Merged(prev, solvedMap, startTime)
  {
    next := prev;
    var pending := solvedMap.Keys;
    while pending != {}
      invariant pending <= solvedMap.Keys
      invariant next.Keys == prev.Keys + (solvedMap.Keys - pending)
      invariant forall slug :: slug in next ==>
                  next[slug] == if slug in prev then prev[slug]
                                else ProgressEntry(true, ElapsedMinutes(solvedMap[slug], startTime))
      decreases pending
    {
      var slug :| slug in pending;
      if slug !in next {
        next := next[slug := ProgressEntry(true, ElapsedMinutes(solvedMap[slug], startTime))];
      }
      pending := pending - {slug};
    }
  }

  /** Applying the same response twice gives the map that applying it once gives. */
  lemma MergeIdempotent(prev: Progress, solvedMap: map<string, int>, startTime: int)
    ensures Merged(Merged(prev, solvedMap, startTime), solvedMap, startTime) == Merged(prev, solvedMap, startTime)
  {
    var once := Merged(prev, solvedMap, startTime);
    var twice := Merged(once, solvedMap, startTime);
    assert twice.Keys == once.Keys;
    forall slug | slug in once ensures twice[slug] == once[slug] {
    }
  }

  /** A poll never lowers the score. */
  lemma MergeNeverLowersScore(contest: seq<Question>, prev: Progress, solvedMap: map<string, int>, startTime: int)
    ensures TotalScore(contest, prev) <= TotalScore(contest, Merged(prev, solvedMap, startTime))
  {
    ScoreMonotone(contest, prev, Merged(prev, solvedMap, startTime));
  }

  // ---------------------------------------------------------------------
  // Tag selection
  // ---------------------------------------------------------------------

  function IsNot(slug: string): string -> bool
  {
    (t: string) => t != slug
  }

  /**
   toggleTag's updater: drop every occurrence of a selected slug, or append an
   unselected one. Only that slug's membership changes, and no duplicate is
   introduced.
   */
  function ToggledTags(tags: seq<string>, slug: string): (r: seq<string>)
    ensures slug in r <==> slug !in tags
    ensures forall t :: t != slug ==> (t in r <==> t in tags)
    ensures NoDuplicates(tags) ==> NoDuplicates(r)
  {
    if slug in tags then
      assert NoDuplicates(tags) ==> NoDuplicates(Filter(tags, IsNot(slug))) by {
        if NoDuplicates(tags) {
          FilterNoDuplicates(tags, IsNot(slug));
        }
      }
      Filter(tags, IsNot(slug))
    else
      tags + [slug]
  }

  /**
   Toggling a slug twice restores the selection: exactly, when the slug was not
   selected; as a set, when it was (it moves to the end).
   */
  lemma ToggleTwice(tags: seq<string>, slug: string)
    ensures slug !in tags ==> ToggledTags(ToggledTags(tags, slug), slug) == tags
    ensures forall t :: t in ToggledTags(ToggledTags(tags, slug), slug) <==> t in tags
  {
    if slug !in tags {
      FilterDistributes(tags, [slug], IsNot(slug));
      FilterKeepsAll(tags, IsNot(slug));
      FilterDropsAll([slug], IsNot(slug));
    }
  }

  // ---------------------------------------------------------------------
  // Clock
  // ---------------------------------------------------------------------

  /**
   JavaScript's `%`: the remainder takes the sign of the dividend, is smaller in
   size than the divisor, and differs from the dividend by a multiple of it.
   */
  function JsRem(a: int, b: int): (r: int)
    requires b > 0
    ensures -b < r < b
    ensures (a - r) % b == 0
    ensures a >= 0 ==> r >= 0 && r == a % b
    ensures a < 0 ==> r <= 0
  {
    RemainderCongruence(a, b);
    if a >= 0 then a % b else -((-a) % b)
  }

  /** Both branches of JsRem differ from the dividend by a multiple of the divisor. */
  lemma RemainderCongruence(a: int, b: int)
    requires b > 0
    ensures (a - a % b) % b == 0
    ensures (a + (-a) % b) % b == 0
  {
    assert a - a % b == b * (a / b);
    MultipleOfDivisor(b, a / b);
    assert a + (-a) % b == b * -((-a) / b);
    MultipleOfDivisor(b, -((-a) / b));
  }

  /** A multiple of a positive divisor leaves no remainder. */
  lemma MultipleOfDivisor(b: int, k: int)
    requires b > 0
    ensures (b * k) % b == 0
  {
    var x := b * k;
    var q := x / b;
    assert b * (k - q) == x % b;
    ProductBounds(b, k - q);
  }

  /** Multiplying a positive number by a non-zero integer keeps it at least that far from 0. */
  lemma ProductBounds(b: int, d: int)
    requires b > 0
    ensures d >= 1 ==> b * d >= b
    ensures d <= -1 ==> b * d <= -b
  {
  }

  /**
   formatTime: minutes, a colon, and the seconds padded with '0' below 10. For
   a non-negative count the seconds are the remainder mod 60, padded to two
   digits by SecondsField.
   */
  function FormatTime(seconds: int): (r: string)
    ensures seconds >= 0 ==> r == NatToString(seconds / 60) + ":" + SecondsField(seconds % 60)
  {
    var m := seconds / 60;
    var s := JsRem(seconds, 60);
    IntToString(m) + ":" + (if s < 10 then "0" else "") + IntToString(s)
  }

  /**
   For a non-negative count of seconds the clock reads "m:ss": digits, a colon,
   exactly two digits; the minutes are seconds div 60 without leading zeros, the
   two digits are seconds mod 60, and together they give back the seconds.
   */
  lemma FormatTimeShape(seconds: int)
    requires seconds >= 0
    ensures var r := FormatTime(seconds);
            && |r| >= 4 && r[|r| - 3] == ':'
            && AllDigits(r[..|r| - 3]) && AllDigits(r[|r| - 2..])
            && (|r| > 4 ==> r[0] != '0')
            && Value(r[..|r| - 3]) == seconds / 60
            && Value(r[|r| - 2..]) == seconds % 60
            && Value(r[..|r| - 3]) * 60 + Value(r[|r| - 2..]) == seconds
  {
    var m, s := seconds / 60, seconds % 60;
    var ms, ss := NatToString(m), SecondsField(s);
    assert FormatTime(seconds) == ms + ":" + ss;
    NatToStringRoundTrip(m);
    SecondsFieldDigits(s);
    ClockParts(ms, ss);
  }

  /** The seconds field of formatTime for 0 <= s < 60: `${s < 10 ? '0' : ''}${s}`. */
  function SecondsField(s: nat): string
  {
    (if s < 10 then "0" else "") + NatToString(s)
  }

  /** The seconds field is exactly two digits that read as `s`. */
  lemma SecondsFieldDigits(s: nat)
    requires s < 60
    ensures |SecondsField(s)| == 2 && AllDigits(SecondsField(s)) && Value(SecondsField(s)) == s
  {
    NatToStringRoundTrip(s);
    if s < 10 {
      LeadingZero(NatToString(s));
    }
  }

  /** The two sides of the colon in `ms + ":" + ss` when `ss` has two characters. */
  lemma ClockParts(ms: string, ss: string)
    requires |ss| == 2
    ensures var r := ms + ":" + ss;
            |r| == |ms| + 3 && r[|r| - 3] == ':' && r[..|r| - 3] == ms && r[|r| - 2..] == ss
  {
  }

  // ---------------------------------------------------------------------
  // Countdown
  // ---------------------------------------------------------------------

  /**
   `Math.max(0, Math.floor((endTime - now) / 1000))`: the whole seconds left,
   zero when less than one second is left or the end has passed.
   */
  function RemainingSeconds(endTime: int, now: int): (r: nat)
    ensures endTime - now < 1000 ==> r == 0
    ensures endTime - now >= 1000 ==> 1000 * r <= endTime - now < 1000 * (r + 1)
  {
    var s := (endTime - now) / 1000;
    if s < 0 then 0 else s
  }

  /**
   A tick triggers a status check when time is left and it is a multiple of 15
   seconds, so the first check comes 15 seconds into a fresh contest.
   */
  predicate PollDue(remaining: int)
    ensures PollDue(remaining) ==> remaining >= 15
  {
    remaining > 0 && remaining % 15 == 0
  }

  /**
   Checks are 15 seconds apart: no value within 14 seconds of a due one, on
   either side, is due, and any 15 consecutive positive values contain a due one.
   */
  lemma PollCadence(remaining: int)
    ensures PollDue(remaining) ==> forall t :: remaining < t < remaining + 15 ==> !PollDue(t)
    ensures PollDue(remaining) ==> forall t :: remaining - 15 < t < remaining ==> !PollDue(t)
    ensures remaining > 0 ==> exists t :: remaining <= t < remaining + 15 && PollDue(t)
  {
    if remaining > 0 {
      var t := remaining + (15 - remaining % 15) % 15;
      assert t % 15 == 0;
      assert PollDue(t);
    }
  }

}
