/**
 * The home screen of the transport app: the list of bus makes fetched from
 * the catalogue, the free-text search over their titles, the per-item
 * "selected" toggle and the click counter kept by the wrapping provider.
 */
module Home {
  import opened Wrappers
  import opened Text

  /** One entry of the catalogue's `Results` array. */
  datatype RawRecord = RawRecord(makeId: int, makeName: string)

  /**
   * The randomly generated display strings of one item (`price`, formatted
   * as `$xx.xx`, and `roomTime`, formatted as `N hours`); they are inputs
   * of the model.
   */
  datatype Filler = Filler(price: string, roomTime: string)

  /** A display item of the list. */
  datatype Item = Item(id: int, title: string, description: string,
                       price: string, roomTime: string, clicked: bool)

  /** The description every ingested item carries. */
  const BusDescription: string := "Vehicle Type: Bus"

  /** The display item built from one raw record and its random filler. */
  function ToItem(rec: RawRecord, fill: Filler): (r: Item)
    ensures r.id == rec.makeId && r.title == rec.makeName && r.description == BusDescription
    ensures r.price == fill.price && r.roomTime == fill.roomTime
    ensures !r.clicked
  {
    Item(rec.makeId, rec.makeName, BusDescription, fill.price, fill.roomTime, false)
  }

  /**
   * `Results.map(...)`: one display item per raw record, in arrival order;
   * `draw(i)` is the random filler produced while mapping record `i`.
   */
  function MakeItems(raw: seq<RawRecord>, draw: nat -> Filler): (r: seq<Item>)
    ensures |r| == |raw|
    ensures forall i :: 0 <= i < |raw| ==>
              r[i].id == raw[i].makeId && r[i].title == raw[i].makeName &&
              r[i].description == BusDescription &&
              r[i].price == draw(i).price && r[i].roomTime == draw(i).roomTime &&
              !r[i].clicked
  {
    if raw == [] then []
    else MakeItems(raw[..|raw| - 1], draw) + [ToItem(raw[|raw| - 1], draw(|raw| - 1))]
  }

  // ---------------------------------------------------------------------
  // Search filter

  /** The search predicate: the lower-cased title includes the lower-cased query. */
  predicate Matches(item: Item, query: string)
    ensures Matches(item, query) <==> exists i: nat :: OccursAt(Lower(item.title), Lower(query), i)
    ensures query == "" ==> Matches(item, query)
  {
    IncludesIff(Lower(item.title), Lower(query));
    Includes(Lower(item.title), Lower(query))
  }

  /** `a` can be obtained from `b` by deleting elements (order is kept). */
  ghost predicate IsSubsequence<T>(a: seq<T>, b: seq<T>)
  {
    if a == [] then true
    else if b == [] then false
    else (a[0] == b[0] && IsSubsequence(a[1..], b[1..])) || IsSubsequence(a, b[1..])
  }

  /**
   * `items.filter(item => item.title.toLowerCase().includes(query.toLowerCase()))`:
   * an order-preserving subsequence of `items` holding every matching item
   * as often as `items` does, and nothing else.
   */
  function FilterItems(items: seq<Item>, query: string): (r: seq<Item>)
    ensures |r| <= |items|
    ensures forall x :: x in r <==> x in items && Matches(x, query)
  {
    if items == [] then []
    else
      var rest := FilterItems(items[1..], query);
      assert items == [items[0]] + items[1..];
      if Matches(items[0], query) then [items[0]] + rest else rest
  }

  /**
   * The filter keeps the relative order of the items it keeps, and keeps
   * every matching item exactly as many times as it occurs in the list.
   */
  lemma {:induction false} FilterExactly(items: seq<Item>, query: string)
    ensures IsSubsequence(FilterItems(items, query), items)
    ensures forall x :: multiset(FilterItems(items, query))[x] ==
                        if Matches(x, query) then multiset(items)[x] else 0
  {
    if items != [] {
      FilterExactly(items[1..], query);
      assert items == [items[0]] + items[1..];
    }
  }

  /** An empty query keeps the whole list, in order. */
  lemma {:induction false} FilterEmptyQuery(items: seq<Item>)
    ensures FilterItems(items, "") == items
  {
    if items != [] {
      assert Lower("") == "";
      assert Matches(items[0], "");
      FilterEmptyQuery(items[1..]);
    }
  }

  /** The search is case-insensitive in the query. */
  lemma {:induction false} FilterQueryCaseInsensitive(items: seq<Item>, query: string)
    ensures FilterItems(items, Lower(query)) == FilterItems(items, query)
  {
    LowerIdempotent(query);
    if items != [] {
      FilterQueryCaseInsensitive(items[1..], query);
    }
  }

  /** An item whose title literally contains the query is always shown. */
  lemma LiteralMatchIsShown(items: seq<Item>, query: string, i: nat)
    requires i < |items| && Includes(items[i].title, query)
    ensures items[i] in FilterItems(items, query)
  {
    LowerPreservesIncludes(items[i].title, query);
  }

  // ---------------------------------------------------------------------
  // Selection

  /** The effect of one click on one item: items with the clicked id flip. */
  function Flip(item: Item, id: int): (r: Item)
    ensures r.id == item.id && r.title == item.title && r.description == item.description
    ensures r.price == item.price && r.roomTime == item.roomTime
    ensures r.clicked == (if item.id == id then !item.clicked else item.clicked)
  {
    if item.id == id then item.(clicked := !item.clicked) else item
  }

  /**
   * The list after `handleItemClick(id)`: every item with that id has its
   * `clicked` flag negated, every other item is untouched, and the length
   * and the order are kept.
   */
  function Toggled(items: seq<Item>, id: int): (r: seq<Item>)
    ensures |r| == |items|
    ensures forall i :: 0 <= i < |items| ==>
              if items[i].id == id
              then r[i] == items[i].(clicked := !items[i].clicked)
              else r[i] == items[i]
  {
    if items == [] then [] else [Flip(items[0], id)] + Toggled(items[1..], id)
  }

  /** Number of selected items. */
  function CountClicked(items: seq<Item>): nat
  {
    if items == [] then 0 else (if items[0].clicked then 1 else 0) + CountClicked(items[1..])
  }

  /** Number of items with id `id` whose flag is `clicked`. */
  function CountWith(items: seq<Item>, id: int, clicked: bool): (n: nat)
    ensures n <= |items|
  {
    if items == [] then 0
    else (if items[0].id == id && items[0].clicked == clicked then 1 else 0) + CountWith(items[1..], id, clicked)
  }

  /** Counting is additive over concatenation. */
  lemma {:induction false} CountClickedAppend(a: seq<Item>, b: seq<Item>)
    ensures CountClicked(a + b) == CountClicked(a) + CountClicked(b)
  {
    if a != [] {
      assert (a + b)[1..] == a[1..] + b;
      CountClickedAppend(a[1..], b);
    } else {
      assert a + b == b;
    }
  }

  /** Same for the per-id counts. */
  lemma {:induction false} CountWithAppend(a: seq<Item>, b: seq<Item>, id: int, clicked: bool)
    ensures CountWith(a + b, id, clicked) == CountWith(a, id, clicked) + CountWith(b, id, clicked)
  {
    if a != [] {
      assert (a + b)[1..] == a[1..] + b;
      CountWithAppend(a[1..], b, id, clicked);
    } else {
      assert a + b == b;
    }
  }

  /** Toggling distributes over concatenation (the click handler maps element by element). */
  lemma ToggledAppend(a: seq<Item>, b: seq<Item>, id: int)
    ensures Toggled(a + b, id) == Toggled(a, id) + Toggled(b, id)
  {
  }

  /**
   * One click changes the number of selected items by the number of matching
   * items that became selected minus the number that became unselected.
   */
  lemma {:induction false} ToggleCount(items: seq<Item>, id: int)
    ensures CountClicked(Toggled(items, id)) ==
            CountClicked(items) + CountWith(items, id, false) - CountWith(items, id, true)
  {
    if items != [] {
      assert Toggled(items, id)[1..] == Toggled(items[1..], id);
      ToggleCount(items[1..], id);
    }
  }

  /** Extending a prefix by one item extends the toggled prefix and the counts accordingly. */
  lemma ToggleStep(items: seq<Item>, i: nat, id: int)
    requires i < |items|
    ensures Toggled(items[..i + 1], id) == Toggled(items[..i], id) + [Flip(items[i], id)]
    ensures CountWith(items[..i + 1], id, false) ==
            CountWith(items[..i], id, false) + (if items[i].id == id && !items[i].clicked then 1 else 0)
    ensures CountWith(items[..i + 1], id, true) ==
            CountWith(items[..i], id, true) + (if items[i].id == id && items[i].clicked then 1 else 0)
  {
    assert items[..i + 1] == items[..i] + [items[i]];
    CountWithAppend(items[..i], [items[i]], id, false);
    CountWithAppend(items[..i], [items[i]], id, true);
    ToggledAppend(items[..i], [items[i]], id);
  }

  /** Clicking an id that no item has changes nothing. */
  lemma ToggleUnknownId(items: seq<Item>, id: int)
    requires forall i :: 0 <= i < |items| ==> items[i].id != id
    ensures Toggled(items, id) == items
    ensures CountWith(items, id, false) == 0 && CountWith(items, id, true) == 0
  {
    CountWithUnknownId(items, id, false);
    CountWithUnknownId(items, id, true);
  }

  lemma {:induction false} CountWithUnknownId(items: seq<Item>, id: int, clicked: bool)
    requires forall i :: 0 <= i < |items| ==> items[i].id != id
    ensures CountWith(items, id, clicked) == 0
  {
    if items != [] {
      CountWithUnknownId(items[1..], id, clicked);
    }
  }

  /** Clicking the same id twice restores the list. */
  lemma ToggleTwice(items: seq<Item>, id: int)
    ensures Toggled(Toggled(items, id), id) == items
  {
  }

  /** After one click, the flipped items of the other flag are exactly the old matching ones. */
  lemma {:induction false} ToggleSwapsCounts(items: seq<Item>, id: int, clicked: bool)
    ensures CountWith(Toggled(items, id), id, clicked) == CountWith(items, id, !clicked)
  {
    if items != [] {
      assert Toggled(items, id)[1..] == Toggled(items[1..], id);
      ToggleSwapsCounts(items[1..], id, clicked);
    }
  }

  /**
   * The filter only looks at titles, which a click never changes, so the
   * visible list after a click is the old visible list with the same click
   * applied.
   */
  lemma {:induction false} FilterToggleCommute(items: seq<Item>, query: string, id: int)
    ensures FilterItems(Toggled(items, id), query) == Toggled(FilterItems(items, query), id)
  {
    if items != [] {
      assert Toggled(items, id)[1..] == Toggled(items[1..], id);
      FilterToggleCommute(items[1..], query, id);
    }
  }

  /**
   * Worked example: the catalogue answers with Volvo (id 1) and Ford (id 2);
   * "vo" shows only Volvo; one click on id 1 selects one item, a second
   * click on id 1 selects none again.
   */
  lemma ScenarioVolvoFord(draw: nat -> Filler)
    ensures var items := MakeItems([RawRecord(1, "Volvo"), RawRecord(2, "Ford")], draw);
            |items| == 2 && items[0].id == 1 && items[1].id == 2 &&
            !items[0].clicked && !items[1].clicked &&
            FilterItems(items, "vo") == [items[0]] &&
            CountClicked(Toggled(items, 1)) == 1 &&
            CountClicked(Toggled(Toggled(items, 1), 1)) == 0
  {
    var items := MakeItems([RawRecord(1, "Volvo"), RawRecord(2, "Ford")], draw);
    var volvo, ford := items[0], items[1];
    assert items == [volvo, ford];
    VoMatches(volvo, ford);
    assert FilterItems([ford], "vo") == [];
    assert FilterItems(items, "vo") == [volvo] + FilterItems([ford], "vo");
    NoneClicked(items);
    ToggleCount(items, 1);
    assert CountWith(items, 1, false) == 1 && CountWith(items, 1, true) == 0;
    ToggleTwice(items, 1);
  }

  /** "Volvo" contains "vo", "Ford" does not. */
  lemma VoMatches(volvo: Item, ford: Item)
    requires volvo.title == "Volvo" && ford.title == "Ford"
    ensures Matches(volvo, "vo") && !Matches(ford, "vo")
  {
    assert ToLowerChar('V') == 'v' && ToLowerChar('F') == 'f';
    assert Lower("Volvo") == "volvo";
    assert Lower("Ford") == "ford";
    assert Lower("vo") == "vo";
    assert "vo" <= "volvo";
    assert !Includes("ford", "vo") by {
      assert "ford"[0] == 'f' && "ford"[1..] == "ord";
      assert "ord"[0] == 'o' && "ord"[1..] == "rd";
      assert "rd"[0] == 'r' && "rd"[1..] == "d";
      assert !Includes("d", "vo");
    }
  }

  // ---------------------------------------------------------------------
  // Screen state

  /**
   * The state of one mounted home screen together with its click-count
   * provider. React's setters and effects are applied synchronously: every
   * method that changes `items` or `query` also recomputes `filtered`.
   */
  class HomeScreen {
    var username: string
    var items: seq<Item>
    var filtered: seq<Item>
    var loading: bool
    var query: string
    var clickCount: int

    /**
     * The screen invariant: the counter equals the number of selected items,
     * the visible list is the filter of the full list, and while loading the
     * list is empty and no query can have been typed (the search field is
     * rendered only once loading is over).
     */
    ghost predicate Valid()
      reads this
      ensures Valid() ==> clickCount >= 0
    {
      clickCount == CountClicked(items) &&
      filtered == FilterItems(items, query) &&
      (loading ==> items == [] && query == "")
    }

    /** Mounting: empty lists, loading, empty query, counter at zero. */
    constructor (username: string)
      ensures Valid()
      ensures this.username == username
      ensures items == [] && filtered == [] && loading && query == "" && clickCount == 0
    {
      this.username := username;
      items := [];
      filtered := [];
      loading := true;
      query := "";
      clickCount := 0;
    }

    /** The provider's `incrementClickCount`. */
    method IncrementClickCount()
      modifies this`clickCount
      ensures clickCount == old(clickCount) + 1
    {
      clickCount := clickCount + 1;
    }

    /** The provider's `decrementClickCount`. */
    method DecrementClickCount()
      modifies this`clickCount
      ensures clickCount == old(clickCount) - 1
    {
      clickCount := clickCount - 1;
    }

    /**
     * The fetch resolves: on success every record becomes an unselected
     * item and the visible list is the whole list; on failure the list stays
     * empty. Either way loading ends.
     */
    method OnFetchResult(outcome: Option<seq<RawRecord>>, draw: nat -> Filler)
      requires Valid() && loading
      modifies this`items, this`filtered, this`loading
      ensures Valid() && !loading
      ensures outcome.Some? ==> items == MakeItems(outcome.value, draw)
      ensures outcome.None? ==> items == []
      ensures filtered == items
      ensures username == old(username) && query == old(query) && clickCount == old(clickCount)
    {
      match outcome {
        case Some(raw) =>
          var updated := MakeItems(raw, draw);
          NoneClicked(updated);
          FilterEmptyQuery(updated);
          items := updated;
          filtered := updated;
          loading := false;
        case None =>
          loading := false;
      }
    }

    /** Typing into the search field: the visible list is recomputed. */
    method SetSearchQuery(q: string)
      requires Valid() && !loading
      modifies this`query, this`filtered
      ensures Valid()
      ensures query == q && filtered == FilterItems(items, q)
      ensures items == old(items) && clickCount == old(clickCount)
    {
      query := q;
      filtered := FilterItems(items, query);
    }

    /**
     * `handleItemClick(itemId)`: walks the list, flipping every item with
     * that id and moving the counter by one per flipped item, up when the
     * item becomes selected and down when it becomes unselected.
     */
    method HandleItemClick(itemId: int)
      requires Valid()
      modifies this`items, this`filtered, this`clickCount
      ensures Valid()
      ensures items == Toggled(old(items), itemId)
      ensures clickCount == old(clickCount) + CountWith(old(items), itemId, false)
                                            - CountWith(old(items), itemId, true)
      ensures filtered == Toggled(old(filtered), itemId)
      ensures loading == old(loading) && query == old(query) && username == old(username)
    {
      var prev := items;
      var next: seq<Item> := [];
      var i := 0;
      while i < |prev|
        invariant 0 <= i <= |prev|
        invariant next == Toggled(prev[..i], itemId)
        invariant clickCount == old(clickCount) + CountWith(prev[..i], itemId, false)
                                                - CountWith(prev[..i], itemId, true)
      {
        var item := prev[i];
        ToggleStep(prev, i, itemId);
        if item.id == itemId {
          if item.clicked {
            DecrementClickCount();
            next := next + [item.(clicked := false)];
          } else {
            IncrementClickCount();
            next := next + [item.(clicked := true)];
          }
        } else {
          next := next + [item];
        }
        i := i + 1;
      }
      assert prev[..i] == prev;
      ToggleCount(prev, itemId);
      FilterToggleCommute(prev, query, itemId);
      items := next;
      filtered := FilterItems(items, query);
    }
  }

  /** Freshly ingested items are all unselected. */
  lemma NoneClicked(items: seq<Item>)
    requires forall i :: 0 <= i < |items| ==> !items[i].clicked
    ensures CountClicked(items) == 0
  {
    if items != [] {
      NoneClicked(items[1..]);
    }
  }
}
