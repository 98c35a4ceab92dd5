/**
 * `WebsiteWalker.walk_website` of `selenium_ai.py`: a retry loop of at most
 * five page loads and extractions, stopping at the first non-empty
 * extraction, followed by an unconditional reload, a click on "Book Now", a
 * final extraction (which is what is returned) and closing the driver.
 *
 * The bodies of the helpers `_load_page`, `_extract_available_times`,
 * `_click_button_by_label` and `_close` are not part of this model; here
 * they act on an abstract browser: each extraction returns the next entry of
 * an oracle sequence (an empty list once it runs out), and every helper call
 * is recorded in a ghost log.
 */
module Walker {

  /** One helper call, as recorded in the ghost log. */
  datatype Call = Loaded(url: string) | Extracted | Clicked(text: string) | Closed

  /** The depth bound of the retry loop. */
  const MaxDepth: nat := 5

  const BookNow: string := "Book Now"

  /** What the `n`-th call of `_extract_available_times` returns; an empty list is Python-falsy. */
  function Extraction(oracle: seq<seq<string>>, n: nat): seq<string>
  {
    if n < |oracle| then oracle[n] else []
  }

  /**
   * The number of iterations the retry loop runs when it is entered at
   * `depth` with the next extraction being number `next`.
   */
  function Rounds(oracle: seq<seq<string>>, next: nat, depth: nat): nat
    requires depth <= MaxDepth
    decreases MaxDepth - depth
  {
    if depth == MaxDepth then 0
    else if Extraction(oracle, next) != [] then 1
    else 1 + Rounds(oracle, next + 1, depth + 1)
  }

  /** Whether the loop, entered at depth 0, ended on a non-empty extraction. */
  predicate LoopFound(oracle: seq<seq<string>>, next: nat)
  {
    Extraction(oracle, next + Rounds(oracle, next, 0) - 1) != []
  }

  /** `depth` when the loop exits: one per empty extraction. */
  function FinalDepth(oracle: seq<seq<string>>, next: nat): nat
  {
    Rounds(oracle, next, 0) - (if LoopFound(oracle, next) then 1 else 0)
  }

  /** The calls of `n` loop iterations: reload `url`, then extract. */
  function LoopLog(url: string, n: nat): seq<Call>
  {
    if n == 0 then [] else LoopLog(url, n - 1) + [Loaded(url), Extracted]
  }

  /** All calls of one walk whose loop ran `n` iterations. */
  function WalkLog(url: string, n: nat): seq<Call>
  {
    LoopLog(url, n) + [Loaded(url), Clicked(BookNow), Extracted, Closed]
  }

  class WebsiteWalker {
    /** What successive extractions return: the abstract perception of the pages. */
    var oracle: seq<seq<string>>
    /** How many extractions have been made. */
    var extracted: nat
    var closed: bool
    ghost var log: seq<Call>

    constructor (oracle: seq<seq<string>>)
      ensures this.oracle == oracle && extracted == 0 && !closed && log == []
    {
      this.oracle := oracle;
      extracted := 0;
      closed := false;
      log := [];
    }

    method LoadPage(url: string)
      modifies this`log
      ensures log == old(log) + [Loaded(url)]
    {
      log := log + [Loaded(url)];
    }

    method ExtractAvailableTimes() returns (times: seq<string>)
      modifies this`log, this`extracted
      ensures times == Extraction(oracle, old(extracted))
      ensures extracted == old(extracted) + 1
      ensures log == old(log) + [Extracted]
    {
      times := Extraction(oracle, extracted);
      extracted := extracted + 1;
      log := log + [Extracted];
    }

    method ClickButtonByLabel(buttonLabel: string)
      modifies this`log
      ensures log == old(log) + [Clicked(buttonLabel)]
    {
      log := log + [Clicked(buttonLabel)];
    }

    method Close()
      modifies this`log, this`closed
      ensures closed
      ensures log == old(log) + [Closed]
    {
      closed := true;
      log := log + [Closed];
    }

    /** `walk_website`: the bounded retry loop, then the "Book Now" step whose extraction is returned. */
    method WalkWebsite(url: string) returns (availableTimes: seq<string>)
      modifies this`log, this`extracted, this`closed
      ensures closed
      ensures extracted == old(extracted) + Rounds(oracle, old(extracted), 0) + 1
      ensures availableTimes == Extraction(oracle, old(extracted) + Rounds(oracle, old(extracted), 0))
      ensures log == old(log) + WalkLog(url, Rounds(oracle, old(extracted), 0))
    {
      ghost var start := extracted;
      ghost var depth;
      availableTimes, depth := RetryLoop(url);
      LoadPage(url);
      ClickButtonByLabel(BookNow);
      availableTimes := ExtractAvailableTimes();
      Close();
      WalkLogEnds(old(log), url, Rounds(oracle, start, 0));
    }

    /**
     * The `while` loop of `walk_website`: reload `url` and extract until an
     * extraction is non-empty or `depth` reaches 5. Its result is the last
     * extraction, which `walk_website` then overwrites.
     */
    method RetryLoop(url: string) returns (availableTimes: seq<string>, ghost finalDepth: nat)
      modifies this`log, this`extracted
      ensures extracted == old(extracted) + Rounds(oracle, old(extracted), 0)
      ensures availableTimes == Extraction(oracle, extracted - 1)
      ensures log == old(log) + LoopLog(url, Rounds(oracle, old(extracted), 0))
      ensures finalDepth == FinalDepth(oracle, old(extracted)) <= MaxDepth
      ensures availableTimes != [] || finalDepth == MaxDepth
    {
      ghost var start := extracted;
      ghost var pages := oracle;
      ghost var log0 := log;
      ghost var rounds: nat := 0;
      var depth := 0;
      var notFound := true;
      availableTimes := [];

      while notFound && depth < 5
        invariant oracle == pages && extracted == start + rounds && depth <= MaxDepth
        invariant log == log0 + LoopLog(url, rounds)
        invariant notFound ==> depth == rounds && Rounds(pages, start, 0) == depth + Rounds(pages, extracted, depth)
        invariant !notFound ==> rounds == depth + 1 && Rounds(pages, start, 0) == rounds
        invariant rounds > 0 ==> availableTimes == Extraction(pages, extracted - 1)
        invariant notFound <==> availableTimes == []
        decreases MaxDepth - depth + (if notFound then 1 else 0)
      {
        LoadPage(url);
        availableTimes := ExtractAvailableTimes();
        LoopLogGrows(log0, url, rounds);
        RoundsStep(pages, start + rounds, depth);
        rounds := rounds + 1;
        if availableTimes != [] {
          notFound := false;
        } else {
          depth := depth + 1;
        }
      }
      if notFound {
        assert Rounds(pages, extracted, MaxDepth) == 0;
      }
      RoundsBounded(pages, start, 0);
      finalDepth := depth;
    }
  }

  /** One more iteration appends a reload and an extraction to the log. */
  lemma LoopLogGrows(before: seq<Call>, url: string, n: nat)
    ensures before + LoopLog(url, n) + [Loaded(url)] + [Extracted] == before + LoopLog(url, n + 1)
  {
    assert LoopLog(url, n + 1) == LoopLog(url, n) + [Loaded(url), Extracted];
  }

  /** The calls after the loop complete the walk's log. */
  lemma WalkLogEnds(before: seq<Call>, url: string, n: nat)
    ensures before + LoopLog(url, n) + [Loaded(url)] + [Clicked(BookNow)] + [Extracted] + [Closed]
            == before + WalkLog(url, n)
  {
  }

  /** One iteration of the loop: it stops on a non-empty extraction and otherwise goes one level deeper. */
  lemma RoundsStep(oracle: seq<seq<string>>, next: nat, depth: nat)
    requires depth < MaxDepth
    ensures Rounds(oracle, next, depth)
            == if Extraction(oracle, next) != [] then 1 else 1 + Rounds(oracle, next + 1, depth + 1)
  {
  }

  /** The loop runs at least once and at most the remaining depth budget: the walk always terminates. */
  lemma {:induction false} RoundsBounded(oracle: seq<seq<string>>, next: nat, depth: nat)
    requires depth < MaxDepth
    ensures 1 <= Rounds(oracle, next, depth) <= MaxDepth - depth
    decreases MaxDepth - depth
  {
    if Extraction(oracle, next) == [] && depth + 1 < MaxDepth {
      RoundsBounded(oracle, next + 1, depth + 1);
    }
  }

  /**
   * Every iteration but the last saw an empty extraction, and the loop stops
   * either on a non-empty extraction or because the depth budget is spent.
   */
  lemma {:induction false} LoopStopsAtFirstFound(oracle: seq<seq<string>>, next: nat, depth: nat)
    requires depth < MaxDepth
    ensures Rounds(oracle, next, depth) >= 1
    ensures forall j :: next <= j < next + Rounds(oracle, next, depth) - 1 ==> Extraction(oracle, j) == []
    ensures Extraction(oracle, next + Rounds(oracle, next, depth) - 1) != []
            || depth + Rounds(oracle, next, depth) == MaxDepth
    decreases MaxDepth - depth
  {
    if Extraction(oracle, next) == [] && depth + 1 < MaxDepth {
      LoopStopsAtFirstFound(oracle, next + 1, depth + 1);
    }
  }

  /** On exit the loop either found times or `depth` reached 5, and `depth` never exceeds 5. */
  lemma ExitCondition(oracle: seq<seq<string>>, next: nat)
    ensures LoopFound(oracle, next) || FinalDepth(oracle, next) == MaxDepth
    ensures FinalDepth(oracle, next) <= MaxDepth
  {
    LoopStopsAtFirstFound(oracle, next, 0);
    RoundsBounded(oracle, next, 0);
  }

  /** Five empty extractions in a row use up the whole depth budget. */
  lemma {:induction false} EmptyPagesExhaustDepth(oracle: seq<seq<string>>, next: nat, depth: nat)
    requires depth <= MaxDepth
    requires forall j :: next <= j < next + MaxDepth - depth ==> Extraction(oracle, j) == []
    ensures Rounds(oracle, next, depth) == MaxDepth - depth
    decreases MaxDepth - depth
  {
    if depth < MaxDepth {
      EmptyPagesExhaustDepth(oracle, next + 1, depth + 1);
    }
  }

  /** Each loop iteration reloads the same starting `url` and then extracts. */
  lemma {:induction false} LoopLogShape(url: string, n: nat)
    ensures |LoopLog(url, n)| == 2 * n
    ensures forall k :: 0 <= k < n ==> LoopLog(url, n)[2 * k] == Loaded(url) && LoopLog(url, n)[2 * k + 1] == Extracted
  {
    if n > 0 {
      LoopLogShape(url, n - 1);
    }
  }

  /**
   * After the loop come exactly one reload of `url`, one click on "Book Now",
   * one extraction and one close; the driver is closed once, as the last call.
   */
  lemma WalkEndsWithBookNow(url: string, n: nat)
    ensures |WalkLog(url, n)| == 2 * n + 4
    ensures WalkLog(url, n)[2 * n..] == [Loaded(url), Clicked(BookNow), Extracted, Closed]
    ensures forall i :: 0 <= i < |WalkLog(url, n)| ==> (WalkLog(url, n)[i] == Closed <==> i == 2 * n + 3)
    ensures forall i :: 0 <= i < |WalkLog(url, n)| ==> (WalkLog(url, n)[i].Clicked? <==> i == 2 * n + 1)
  {
    LoopLogShape(url, n);
    var w := WalkLog(url, n);
    forall i | 0 <= i < 2 * n
      ensures w[i] == Loaded(url) || w[i] == Extracted
    {
      assert w[i] == LoopLog(url, n)[i];
      assert w[i] == LoopLog(url, n)[2 * (i / 2) + i % 2];
    }
  }

  /**
   * The loop's own result is discarded: times found by the first extraction
   * end the loop, but the walk returns the extraction made after clicking
   * "Book Now", here a different list.
   */
  lemma LoopResultDiscarded()
    ensures Rounds([["19:00"], ["20:00"]], 0, 0) == 1
    ensures LoopFound([["19:00"], ["20:00"]], 0)
    ensures Extraction([["19:00"], ["20:00"]], 0 + Rounds([["19:00"], ["20:00"]], 0, 0) - 1) == ["19:00"]
    ensures Extraction([["19:00"], ["20:00"]], 0 + Rounds([["19:00"], ["20:00"]], 0, 0)) == ["20:00"]
  {
  }
}
