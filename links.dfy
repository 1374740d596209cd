/**
 * The quick-link grid as values: the tiles it holds, the `{title, url}`
 * records the store keeps, and the function that says which records a
 * grid persists.
 */
module Links {
  import opened Text

  /** One stored quick link. */
  datatype Link = Link(title: string, url: string)

  /**
   * A tile of the grid. Default tiles come with the page and carry only the
   * URL they open; custom tiles are added at run time and carry the title
   * they show, the one-letter icon drawn from it and the URL they open.
   */
  datatype Tile =
    | DefaultTile(url: string)
    | CustomTile(title: string, icon: string, url: string)

  /** The icon glyph: the first character of the title, upper-cased; nothing for an empty title. */
  function Icon(title: string): (r: string)
    ensures |r| <= 1
    ensures r == [] <==> title == []
    ensures r != [] ==> r[0] == ToUpperChar(title[0])
  {
    if title == [] then [] else [ToUpperChar(title[0])]
  }

  /** The tile `addLinkToGrid` builds. */
  function NewTile(title: string, url: string): (t: Tile)
    ensures t.CustomTile? && t.title == title && t.url == url && t.icon == Icon(title)
  {
    CustomTile(title, Icon(title), url)
  }

  /** The tiles the page's markup starts with, one default tile per URL. */
  function DefaultTiles(urls: seq<string>): (r: seq<Tile>)
    ensures |r| == |urls|
    ensures forall i :: 0 <= i < |r| ==> r[i] == DefaultTile(urls[i])
  {
    if urls == [] then [] else [DefaultTile(urls[0])] + DefaultTiles(urls[1..])
  }

  /** What one tile adds to the stored list: nothing for a default tile or an empty URL. */
  function Persisted(t: Tile): (r: seq<Link>)
    ensures |r| <= 1
    ensures r == [] <==> !t.CustomTile? || t.url == []
    ensures r != [] ==> r[0].title == t.title && r[0].url == t.url
  {
    if t.CustomTile? && t.url != [] then [Link(t.title, t.url)] else []
  }

  /**
   * The list `saveLinks` writes for a grid: the custom tiles with a
   * non-empty URL, as `{title, url}` records, in grid order.
   */
  function CustomLinks(grid: seq<Tile>): (r: seq<Link>)
    ensures |r| <= |grid|
    ensures forall k :: 0 <= k < |r| ==> r[k].url != []
  {
    if grid == [] then [] else CustomLinks(grid[..|grid| - 1]) + Persisted(grid[|grid| - 1])
  }

  /** The tiles `loadLinks` adds for a stored list, in stored order. */
  function RestoredTiles(links: seq<Link>): (r: seq<Tile>)
    ensures |r| == |links|
    ensures forall k :: 0 <= k < |r| ==> r[k] == NewTile(links[k].title, links[k].url)
  {
    if links == [] then [] else RestoredTiles(links[..|links| - 1]) + [NewTile(links[|links| - 1].title, links[|links| - 1].url)]
  }

  /** Every element of a stored list has a non-empty URL. */
  predicate AllUrlsPresent(links: seq<Link>)
  {
    forall k :: 0 <= k < |links| ==> links[k].url != []
  }

  /** The stored list of a grid built in two parts is the two parts' lists, one after the other. */
  lemma {:induction false} CustomLinksAppend(a: seq<Tile>, b: seq<Tile>)
    ensures CustomLinks(a + b) == CustomLinks(a) + CustomLinks(b)
    decreases |b|
  {
    if b == [] {
      assert a + b == a;
    } else {
      var b' := b[..|b| - 1];
      assert (a + b)[..|a + b| - 1] == a + b';
      CustomLinksAppend(a, b');
    }
  }

  /** Appending one tile to the grid appends what that tile persists. */
  lemma CustomLinksSnoc(grid: seq<Tile>, t: Tile)
    ensures CustomLinks(grid + [t]) == CustomLinks(grid) + Persisted(t)
  {
    assert (grid + [t])[..|grid|] == grid;
  }

  /** Default tiles are never written: taking one out of the grid leaves the stored list as it was. */
  lemma DefaultTileNotPersisted(a: seq<Tile>, url: string, b: seq<Tile>)
    ensures CustomLinks(a + [DefaultTile(url)] + b) == CustomLinks(a + b)
  {
    CustomLinksAppend(a + [DefaultTile(url)], b);
    CustomLinksSnoc(a, DefaultTile(url));
    CustomLinksAppend(a, b);
  }

  /** A grid without custom tiles persists an empty list. */
  lemma {:induction false} OnlyDefaultsPersistNothing(grid: seq<Tile>)
    requires forall i :: 0 <= i < |grid| ==> grid[i].DefaultTile?
    ensures CustomLinks(grid) == []
  {
    if grid != [] {
      OnlyDefaultsPersistNothing(grid[..|grid| - 1]);
    }
  }

  /**
   * Every stored record comes from a custom tile of the grid, and every
   * custom tile with a URL is stored: the list is empty exactly when the
   * grid has no custom tile with a non-empty URL.
   */
  lemma {:induction false} CustomLinksEmpty(grid: seq<Tile>)
    ensures CustomLinks(grid) == [] <==>
      forall i :: 0 <= i < |grid| && grid[i].CustomTile? ==> grid[i].url == []
  {
    if grid != [] {
      var init := grid[..|grid| - 1];
      CustomLinksEmpty(init);
      assert forall i :: 0 <= i < |init| ==> init[i] == grid[i];
    }
  }

  /**
   * Restoring a stored list and saving it again gives the same list back,
   * provided no record has an empty URL (those are dropped on saving).
   */
  lemma {:induction false} RestoreThenPersist(links: seq<Link>)
    requires AllUrlsPresent(links)
    ensures CustomLinks(RestoredTiles(links)) == links
  {
    if links != [] {
      var init := links[..|links| - 1];
      var last := links[|links| - 1];
      assert AllUrlsPresent(init) by {
        forall k | 0 <= k < |init| ensures init[k].url != [] { assert init[k] == links[k]; }
      }
      RestoreThenPersist(init);
      assert RestoredTiles(links) == RestoredTiles(init) + [NewTile(last.title, last.url)];
      CustomLinksSnoc(RestoredTiles(init), NewTile(last.title, last.url));
      assert init + [last] == links;
    }
  }

  /**
   * A record with an empty URL is restored as a tile but is not saved back:
   * the round trip above needs its requirement.
   */
  lemma EmptyUrlDroppedOnSave(title: string)
    ensures CustomLinks(RestoredTiles([Link(title, [])])) == []
  {
    assert RestoredTiles([Link(title, [])]) == [NewTile(title, [])];
    CustomLinksSnoc([], NewTile(title, []));
  }

  /**
   * Reloading: a grid of default tiles with a stored list restored into it
   * persists exactly that list again, provided no record has an empty URL.
   */
  lemma ReloadPersistsSameList(urls: seq<string>, links: seq<Link>)
    requires AllUrlsPresent(links)
    ensures CustomLinks(DefaultTiles(urls) + RestoredTiles(links)) == links
  {
    OnlyDefaultsPersistNothing(DefaultTiles(urls));
    CustomLinksAppend(DefaultTiles(urls), RestoredTiles(links));
    RestoreThenPersist(links);
  }
}
