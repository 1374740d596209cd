/**
 * The start page as one object: the state the script keeps in the DOM and
 * in local storage, and one method per event handler. The clock's reading,
 * the URL parser and the keys the user presses come in as parameters; the
 * navigation the script performs is recorded in `location`. Whether local
 * storage accepts writes is part of the page's state: `setItem` throws when
 * the store is full or blocked, and the model follows that exception to the
 * handler that catches it or lets it escape.
 */
module StartPage {
  import opened Wrappers
  import opened Text
  import opened Clock
  import opened UriEncoding
  import opened Search
  import opened Links

  /**
   * What a click on the modal's save button ends in: a new link, the alert
   * for a missing field, or the alert for an invalid URL (which the script
   * also shows when saving the new link throws).
   */
  datatype SaveOutcome = Added | MissingField | InvalidUrl

  class Page {
    /** The text of the `time` element. */
    var timeText: string
    /** The tiles of `links-grid`, in document order. */
    var grid: seq<Tile>
    /** The `quickLinks` key of local storage; None while it is absent. */
    var storedLinks: Option<seq<Link>>
    /** The `background` key of local storage; None while it is absent. */
    var storedBackground: Option<string>
    /**
     * The value last assigned to the body's `background` style; empty while
     * none is. The browser's CSS parser, which may discard a value it cannot
     * read, is not modelled.
     */
    var background: string
    /** Whether `add-link-modal` has the `active` class. */
    var modalOpen: bool
    /** The values of the modal's title and URL inputs. */
    var titleInput: string
    var urlInput: string
    /** The last value assigned to `window.location.href`; None before any navigation. */
    var location: Option<string>
    /** Whether `localStorage.setItem` succeeds; when it is false every write throws. */
    var storageWritable: bool

    /**
     * The page as it is loaded, before its start-up code runs: the default
     * tiles of the markup, whatever local storage kept from earlier visits,
     * the modal closed and nothing navigated.
     */
    constructor (defaultUrls: seq<string>, savedLinks: Option<seq<Link>>, savedBackground: Option<string>,
                 writable: bool)
      ensures grid == DefaultTiles(defaultUrls)
      ensures storedLinks == savedLinks && storedBackground == savedBackground
      ensures storageWritable == writable
      ensures background == [] && timeText == []
      ensures !modalOpen && titleInput == [] && urlInput == []
      ensures location == None
    {
      timeText := [];
      grid := DefaultTiles(defaultUrls);
      storedLinks := savedLinks;
      storedBackground := savedBackground;
      background := [];
      modalOpen := false;
      titleInput, urlInput := [], [];
      location := None;
      storageWritable := writable;
    }

    // -------------------------------------------------------------------
    // Clock

    /** `updateTime`, for the hour and minute the clock reads. */
    method UpdateTime(hours: nat, minutes: nat)
      modifies this`timeText
      ensures timeText == FormatTime(hours, minutes)
    {
      timeText := FormatTime(hours, minutes);
    }

    // -------------------------------------------------------------------
    // Search

    /**
     * `performSearch` with the search box holding `query` and the engine
     * selector set to `engine`: a blank query changes nothing, any other
     * navigates to the search target.
     */
    method PerformSearch(query: string, engine: string)
      modifies this`location
      ensures AllWhitespace(query) ==> location == old(location)
      ensures !AllWhitespace(query) ==> location == SearchTarget(query, engine)
    {
      if Trim(query) != [] {
        location := SearchTarget(query, engine);
      }
    }

    /** The search box's `keypress` handler: only Enter searches. */
    method SearchKeyPress(key: string, query: string, engine: string)
      modifies this`location
      ensures key == "Enter" && !AllWhitespace(query) ==> location == SearchTarget(query, engine)
      ensures key != "Enter" || AllWhitespace(query) ==> location == old(location)
    {
      if key == "Enter" {
        PerformSearch(query, engine);
      }
    }

    // -------------------------------------------------------------------
    // Link grid and link store

    /**
     * `saveLinks`: collects the custom tiles with a non-empty URL, in grid
     * order, and overwrites the `quickLinks` key with them. `stored` is false
     * when the write throws; the key then keeps its old value.
     */
    method SaveLinks() returns (stored: bool)
      modifies this`storedLinks
      ensures stored == storageWritable
      ensures stored ==> storedLinks == Some(CustomLinks(grid))
      ensures !stored ==> storedLinks == old(storedLinks)
    {
      var customLinks: seq<Link> := [];
      var i := 0;
      while i < |grid|
        invariant 0 <= i <= |grid|
        invariant customLinks == CustomLinks(grid[..i])
        invariant storedLinks == old(storedLinks)
      {
        var item := grid[i];
        if item.CustomTile? && item.url != [] {
          customLinks := customLinks + [Link(item.title, item.url)];
        }
        CustomLinksSnoc(grid[..i], item);
        assert grid[..i + 1] == grid[..i] + [item];
        i := i + 1;
      }
      assert grid[..|grid|] == grid;
      if storageWritable {
        storedLinks := Some(customLinks);
      }
      stored := storageWritable;
    }

    /**
     * `addLinkToGrid(title, url, save)`: appends one custom tile and leaves
     * every earlier tile as it was; saves the grid's links when `save` holds
     * and leaves the store alone otherwise. The tile is in the grid before
     * the save is tried, so it stays there when the save throws; `ok` is
     * false exactly then.
     */
    method AddLinkToGrid(title: string, url: string, save: bool) returns (ok: bool)
      modifies this`grid, this`storedLinks
      ensures grid == old(grid) + [NewTile(title, url)]
      ensures ok == (!save || storageWritable)
      ensures save && ok ==> storedLinks == Some(CustomLinks(grid))
      ensures !(save && ok) ==> storedLinks == old(storedLinks)
    {
      grid := grid + [NewTile(title, url)];
      ok := true;
      if save {
        ok := SaveLinks();
      }
    }

    /**
     * `loadLinks`: with nothing stored it does nothing; otherwise it appends
     * one tile per stored record, in stored order, without saving.
     */
    method LoadLinks()
      modifies this`grid, this`storedLinks
      ensures storedLinks == old(storedLinks)
      ensures old(storedLinks).None? ==> grid == old(grid)
      ensures old(storedLinks).Some? ==> grid == old(grid) + RestoredTiles(old(storedLinks).value)
    {
      var savedLinks := storedLinks;
      if savedLinks.Some? {
        var links := savedLinks.value;
        var i := 0;
        while i < |links|
          invariant 0 <= i <= |links|
          invariant grid == old(grid) + RestoredTiles(links[..i])
          invariant storedLinks == old(storedLinks)
        {
          var _ := AddLinkToGrid(links[i].title, links[i].url, false);
          assert links[..i + 1][..i] == links[..i];
          i := i + 1;
        }
        assert links[..|links|] == links;
      }
    }

    /**
     * A click on tile `i`: default and custom tiles alike navigate to their
     * URL, with no check of it.
     */
    method ClickTile(i: nat)
      requires i < |grid|
      modifies this`location
      ensures location == Some(grid[i].url)
    {
      match grid[i]
      case DefaultTile(url) => location := Some(url);
      case CustomTile(_, _, url) => location := Some(url);
    }

    // -------------------------------------------------------------------
    // Add-link modal

    /** The add-link button: opens the modal with both inputs cleared. */
    method OpenModal()
      modifies this`modalOpen, this`titleInput, this`urlInput
      ensures modalOpen && titleInput == [] && urlInput == []
    {
      modalOpen := true;
      titleInput := [];
      urlInput := [];
    }

    /** The user typing into the title input. */
    method SetTitleInput(text: string)
      modifies this`titleInput
      ensures titleInput == text
    {
      titleInput := text;
    }

    /** The user typing into the URL input. */
    method SetUrlInput(text: string)
      modifies this`urlInput
      ensures urlInput == text
    {
      urlInput := text;
    }

    /** The cancel button: closes the modal. */
    method CancelModal()
      modifies this`modalOpen
      ensures !modalOpen
    {
      modalOpen := false;
    }

    /** A click on the modal: closes it only when it lands on the backdrop itself. */
    method ModalClick(onBackdrop: bool)
      modifies this`modalOpen
      ensures onBackdrop ==> !modalOpen
      ensures !onBackdrop ==> modalOpen == old(modalOpen)
    {
      if onBackdrop {
        modalOpen := false;
      }
    }

    /** The document's `keydown` handler, as far as the modal goes: Escape closes an open modal. */
    method KeyDown(key: string)
      modifies this`modalOpen
      ensures key == "Escape" ==> !modalOpen
      ensures key != "Escape" ==> modalOpen == old(modalOpen)
    {
      if key == "Escape" && modalOpen {
        modalOpen := false;
      }
    }

    /**
     * The save button. Both inputs are trimmed; a blank one leaves grid,
     * store and modal as they were and reports the missing-field alert. A
     * URL the parser `parses` rejects does the same with the invalid-URL
     * alert. Otherwise the trimmed link is appended and saved and the modal
     * closes; when that save throws, the same `catch` shows the invalid-URL
     * alert, with the tile already appended, the store unwritten and the
     * modal still open. The inputs keep what was typed.
     */
    method SaveModal(parses: string -> bool) returns (outcome: SaveOutcome)
      modifies this`grid, this`storedLinks, this`modalOpen
      ensures outcome == MissingField <==> (Trim(titleInput) == [] || Trim(urlInput) == [])
      ensures outcome == InvalidUrl <==>
                (Trim(titleInput) != [] && Trim(urlInput) != [] && (!parses(Trim(urlInput)) || !storageWritable))
      ensures outcome == MissingField || (outcome == InvalidUrl && !parses(Trim(urlInput))) ==>
                grid == old(grid) && storedLinks == old(storedLinks) && modalOpen == old(modalOpen)
      ensures outcome == InvalidUrl && parses(Trim(urlInput)) ==>
                && grid == old(grid) + [NewTile(Trim(titleInput), Trim(urlInput))]
                && storedLinks == old(storedLinks)
                && modalOpen == old(modalOpen)
      ensures outcome == Added ==>
                && grid == old(grid) + [NewTile(Trim(titleInput), Trim(urlInput))]
                && storedLinks == Some(CustomLinks(grid))
                && !modalOpen
    {
      var title := Trim(titleInput);
      var url := Trim(urlInput);
      if title != [] && url != [] {
        if parses(url) {
          var saved := AddLinkToGrid(title, url, true);
          assert title == Trim(titleInput) && url == Trim(urlInput);
          if saved {
            modalOpen := false;
            outcome := Added;
          } else {
            outcome := InvalidUrl;
          }
        } else {
          outcome := InvalidUrl;
        }
      } else {
        outcome := MissingField;
      }
    }

    // -------------------------------------------------------------------
    // Background

    /**
     * `changeBackground`: applies the value and stores it. The value is
     * applied before the write is tried, so it stays applied when the write
     * throws; `stored` is false exactly then.
     */
    method ChangeBackground(gradient: string) returns (stored: bool)
      modifies this`background, this`storedBackground
      ensures background == gradient
      ensures stored == storageWritable
      ensures stored ==> storedBackground == Some(gradient)
      ensures !stored ==> storedBackground == old(storedBackground)
    {
      background := gradient;
      if storageWritable {
        storedBackground := Some(gradient);
      }
      stored := storageWritable;
    }

    /**
     * `loadBackground`: applies the stored value when there is one; an
     * empty stored string counts as none.
     */
    method LoadBackground()
      modifies this`background
      ensures storedBackground.Some? && storedBackground.value != [] ==>
                background == storedBackground.value
      ensures storedBackground.None? || storedBackground.value == [] ==>
                background == old(background)
    {
      var savedBackground := storedBackground;
      if savedBackground.Some? && savedBackground.value != [] {
        background := savedBackground.value;
      }
    }

    // -------------------------------------------------------------------
    // Start-up

    /**
     * The script's start-up sequence: the first clock update, the stored
     * background, then the stored links.
     */
    method Initialize(hours: nat, minutes: nat)
      modifies this`timeText, this`background, this`grid, this`storedLinks
      ensures timeText == FormatTime(hours, minutes)
      ensures storedBackground.Some? && storedBackground.value != [] ==>
                background == storedBackground.value
      ensures storedBackground.None? || storedBackground.value == [] ==>
                background == old(background)
      ensures storedLinks == old(storedLinks)
      ensures old(storedLinks).None? ==> grid == old(grid)
      ensures old(storedLinks).Some? ==> grid == old(grid) + RestoredTiles(old(storedLinks).value)
    {
      UpdateTime(hours, minutes);
      LoadBackground();
      LoadLinks();
    }
  }
}
