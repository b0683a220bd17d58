/** The slideshow's page cursor: the list of page builders set up at start, the
    summary page pushed once the data has loaded, and the index that a click on the
    current page advances. Page builders are named by ids; what they draw is not modelled. */
module Slideshow {
  import opened Wrappers

  /** The page builders in the list; the others are commented out of it. */
  datatype Page = LongestActivity | SummaryPage

  /** Whether the data file has been read: while loading nothing is shown, a failed load
      shows a message, a successful one starts the slides. */
  datatype Status = Loading | Failed(message: string) | Started

  /** The message shown when the data file cannot be fetched. */
  const NoDataMessage := "Run python script first!"

  /** The `sports` member of the loaded data as the page sees it: the summary script writes
      a dictionary, which arrives as a plain object; an array is the other shape it could have. */
  datatype SportsJson = JsonObject(keys: set<string>) | JsonArray(items: seq<string>)

  /** `value.includes(name)`: an array answers whether it holds `name`; a plain object has
      no such method, and the call throws a type error. */
  function Includes(value: SportsJson, name: string): (r: Result<bool, string>)
    ensures value.JsonObject? <==> r.Err?
    ensures value.JsonArray? ==> r == Ok(name in value.items)
  {
    match value
    case JsonObject(_) => Err("TypeError: includes is not a function")
    case JsonArray(items) => Ok(name in items)
  }

  /** Whether the data has a summary for `name`: a key of the object, or an element of the array. */
  function HasSport(value: SportsJson, name: string): (r: bool)
    ensures value.JsonObject? ==> (r <==> name in value.keys)
    ensures value.JsonArray? ==> (r <==> Includes(value, name) == Ok(true))
  {
    match value
    case JsonObject(keys) => name in keys
    case JsonArray(items) => name in items
  }

  /** The sports as the summary script writes them. */
  function WrittenSports(summaries: set<string>): (v: SportsJson)
    ensures v.JsonObject? && v.keys == summaries
  {
    JsonObject(summaries)
  }

  /** Every test of the written sports with `includes` throws, whichever sports there are. */
  lemma IncludesThrowsOnWrittenSports(summaries: set<string>, name: string)
    ensures Includes(WrittenSports(summaries), name).Err?
    ensures HasSport(WrittenSports(summaries), name) <==> name in summaries
  {
  }

  class Wrapped {
    var pages: seq<Page>
    var pageIndex: int
    var status: Status
    /** The page element with id `current`, which has the click listener. */
    var current: Option<Page>
    /** The page elements with id `next`, in document order. */
    var staged: seq<Page>
    /** The transitions whose timelines have not finished yet, oldest first. */
    var swaps: seq<Page>
    /** The pages whose enter animation has been started, in order. */
    var entered: seq<Page>

    /** The cursor stays inside the list; the summary page is there, once and last, exactly
        when the slides have started; the pages entered and in transition are exactly the pages up to the cursor. */
    ghost predicate Valid()
      reads this
    {
      && 0 <= pageIndex < |pages|
      && staged == swaps
      && (status.Started? ==>
            && pages == [LongestActivity, SummaryPage]
            && |entered| > 0
            && entered + swaps == pages[..pageIndex + 1]
            && current == Some(entered[|entered| - 1]))
      && (!status.Started? ==> pages == [LongestActivity] && pageIndex == 0 && current.None? && entered == [] && swaps == [])
    }

    /** `init`: the cursor at the first page of a one-page list, while the data loads. */
    constructor Init()
      ensures Valid()
      ensures pages == [LongestActivity] && pageIndex == 0 && status == Loading
      ensures current.None? && staged == [] && swaps == [] && entered == []
    {
      pages := [LongestActivity];
      pageIndex := 0;
      status := Loading;
      current := None;
      staged := [];
      swaps := [];
      entered := [];
    }

    /** `updateCurrent`: the first `next` element becomes the current one, replacing the old. */
    method UpdateCurrent()
      requires |staged| > 0
      modifies this
      ensures current == Some(old(staged[0])) && staged == old(staged[1..])
      ensures pages == old(pages) && pageIndex == old(pageIndex) && status == old(status)
      ensures swaps == old(swaps) && entered == old(entered)
    {
      current := Some(staged[0]);
      staged := staged[1..];
    }

    /** `showFirstPage`: renders the page at the cursor, makes it current and starts its animation. */
    method ShowFirstPage()
      requires 0 <= pageIndex < |pages| && staged == [] && entered == []
      modifies this
      ensures pages == old(pages) && pageIndex == old(pageIndex) && status == old(status) && swaps == old(swaps)
      ensures current == Some(pages[pageIndex]) && staged == [] && entered == [pages[pageIndex]]
    {
      var page := pages[pageIndex];
      staged := staged + [page];
      UpdateCurrent();
      entered := entered + [page];
    }

    /** The completion of the data load as written: on success the test for running or cycling
        calls `includes` on the sports, which throws before the summary page is added. */
    method LoadCompletedAsWritten(success: bool, sports: SportsJson) returns (outcome: Result<(), string>)
      requires Valid() && status == Loading
      modifies this
      ensures Valid()
      ensures success && sports.JsonObject? ==> outcome.Err? && unchanged(this)
      ensures !success ==> outcome.Ok? && status == Failed(NoDataMessage) && pages == old(pages) && current.None?
    {
      if success {
        var running := Includes(sports, "Running");
        if running.Err? {
          return Err(running.error);
        }
        if !running.value {
          var cycling := Includes(sports, "Cycling");
          if cycling.Err? {
            return Err(cycling.error);
          }
        }
        pages := pages + [SummaryPage];
        status := Started;
        ShowFirstPage();
        return Ok(());
      } else {
        status := Failed(NoDataMessage);
        return Ok(());
      }
    }

    /** The completion of the data load: on success the summary page goes last and the first
        page is shown; otherwise the message asking for the data file is shown. */
    method LoadCompleted(success: bool, sports: SportsJson)
      requires Valid() && status == Loading
      modifies this
      ensures Valid()
      ensures success ==> status == Started && pages == old(pages) + [SummaryPage]
      ensures success ==> pageIndex == 0 && current == Some(LongestActivity) && entered == [LongestActivity]
      ensures !success ==> status == Failed(NoDataMessage) && pages == old(pages) && current.None?
    {
      if success {
        if HasSport(sports, "Running") || HasSport(sports, "Cycling") {
          // the improvement slides are not written yet
        }
        pages := pages + [SummaryPage];
        status := Started;
        ShowFirstPage();
      } else {
        status := Failed(NoDataMessage);
      }
    }

    /** `transition`: at the last page nothing happens; otherwise the cursor moves on at once
        and the next page is rendered, while the swap itself waits for the animation. */
    method Transition()
      requires Valid() && status.Started?
      modifies this
      ensures Valid()
      ensures old(pageIndex) + 1 >= |pages| ==> unchanged(this)
      ensures old(pageIndex) + 1 < |pages| ==>
                && pageIndex == old(pageIndex) + 1
                && staged == old(staged) + [pages[pageIndex]]
                && swaps == old(swaps) + [pages[pageIndex]]
                && current == old(current) && entered == old(entered)
      ensures pages == old(pages) && status == old(status)
    {
      if pageIndex + 1 >= |pages| {
        return;
      }
      var nextPage := pages[pageIndex + 1];
      pageIndex := pageIndex + 1;
      staged := staged + [nextPage];
      swaps := swaps + [nextPage];
      assert entered + swaps == (entered + old(swaps)) + [nextPage];
      assert pages[..pageIndex + 1] == pages[..pageIndex] + [nextPage];
    }

    /** The end of the oldest transition's timeline: its page becomes current and its
        enter animation starts. */
    method AnimationCompleted()
      requires Valid() && |swaps| > 0
      modifies this
      ensures Valid()
      ensures current == Some(old(swaps[0])) && entered == old(entered) + [old(swaps[0])]
      ensures swaps == old(swaps[1..]) && staged == old(staged[1..])
      ensures pages == old(pages) && pageIndex == old(pageIndex) && status == old(status)
    {
      var page := swaps[0];
      UpdateCurrent();
      swaps := swaps[1..];
      entered := entered + [page];
      assert entered + swaps == old(entered) + old(swaps);
    }
  }

  /** A second click before the first transition has finished moves nothing: with the two pages
      in the list, the cursor has already reached the summary page. */
  method DoubleClick(w: Wrapped)
    requires w.Valid() && w.status.Started? && w.pageIndex == 0 && w.swaps == []
    modifies w
    ensures w.Valid() && w.pageIndex == 1 && w.swaps == [SummaryPage] && w.current == Some(LongestActivity)
  {
    assert w.entered == w.entered + w.swaps == w.pages[..1] == [LongestActivity];
    w.Transition();
    assert w.pageIndex == 1 && w.pages == [LongestActivity, SummaryPage];
    assert w.swaps == [SummaryPage] && w.current == Some(LongestActivity);
    w.Transition();
  }
}
