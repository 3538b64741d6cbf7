/** The portfolio filter: a row of filter buttons, each with a `data-filter`
    value, and a grid of portfolio items, each with its class list. A click
    on a button marks it, and only it, "active", then gives every item
    either "show" or "hide" according to the button's value. */
module PortfolioFilter {
  import opened ClassList

  const Active := "active"
  const Show := "show"
  const Hide := "hide"
  /** The filter value that matches every item. */
  const All := "all"

  /** A filter button: its class list and its `data-filter` value. */
  datatype Button = Button(classes: ClassSet, filter: string)

  /** The visibility test: an item is shown by a filter value when that
      value is "all" or one of the item's classes. */
  predicate Matches(item: ClassSet, filterValue: string)
  {
    filterValue == All || filterValue in item
  }

  /** One item after a click: exactly one of "show" and "hide", and its
      other classes as before. */
  function Classify(item: ClassSet, filterValue: string): (r: ClassSet)
    ensures Show in r <==> Matches(item, filterValue)
    ensures Hide in r <==> !Matches(item, filterValue)
    ensures r - {Show, Hide} == item - {Show, Hide}
  {
    if Matches(item, filterValue) then Add(Remove(item, Hide), Show)
    else Add(Remove(item, Show), Hide)
  }

  /** The items after a click with the given value, one `forEach` step per item. */
  function ApplyFilter(items: seq<ClassSet>, filterValue: string): (r: seq<ClassSet>)
    ensures |r| == |items|
    ensures forall k :: 0 <= k < |items| ==> r[k] == Classify(items[k], filterValue)
  {
    if items == [] then []
    else [Classify(items[0], filterValue)] + ApplyFilter(items[1..], filterValue)
  }

  /** A button with "active" removed. */
  function Deactivate(b: Button): (r: Button)
  {
    b.(classes := Remove(b.classes, Active))
  }

  /** All buttons with "active" removed, one `forEach` step per button. */
  function DeactivateAll(buttons: seq<Button>): (r: seq<Button>)
    ensures |r| == |buttons|
    ensures forall k :: 0 <= k < |buttons| ==>
      Active !in r[k].classes && r[k].classes + {Active} == buttons[k].classes + {Active} && r[k].filter == buttons[k].filter
  {
    if buttons == [] then []
    else [Deactivate(buttons[0])] + DeactivateAll(buttons[1..])
  }

  /** The buttons after a click on button `clicked`: it alone is active, and
      nothing else about any button changes. */
  function ActivateOnly(buttons: seq<Button>, clicked: nat): (r: seq<Button>)
    requires clicked < |buttons|
    ensures |r| == |buttons|
    ensures forall k :: 0 <= k < |r| ==> (Active in r[k].classes <==> k == clicked)
    ensures forall k :: 0 <= k < |r| ==>
      r[k].classes - {Active} == buttons[k].classes - {Active} && r[k].filter == buttons[k].filter
  {
    var d := DeactivateAll(buttons);
    d[clicked := d[clicked].(classes := Add(d[clicked].classes, Active))]
  }

  /** Classifying twice with the same value is classifying once, unless the
      value is "hide", the one class the classification itself flips. */
  lemma ClassifyIdempotent(item: ClassSet, filterValue: string)
    requires filterValue != Hide
    ensures Classify(Classify(item, filterValue), filterValue) == Classify(item, filterValue)
  {
  }

  /** A value that is not "all" and names no item's class hides every item. */
  lemma UnmatchedValueHidesAll(items: seq<ClassSet>, filterValue: string)
    requires filterValue != All
    requires forall k :: 0 <= k < |items| ==> filterValue !in items[k]
    ensures forall k :: 0 <= k < |items| ==>
      Hide in ApplyFilter(items, filterValue)[k] && Show !in ApplyFilter(items, filterValue)[k]
  {
  }

  /** Clicking the same button twice leaves the buttons and the items as the
      first click left them (for every value but "hide"). */
  lemma ClickIdempotent(buttons: seq<Button>, items: seq<ClassSet>, clicked: nat)
    requires clicked < |buttons|
    requires buttons[clicked].filter != Hide
    ensures ActivateOnly(ActivateOnly(buttons, clicked), clicked) == ActivateOnly(buttons, clicked)
    ensures var v := ActivateOnly(buttons, clicked)[clicked].filter;
      v == buttons[clicked].filter && ApplyFilter(ApplyFilter(items, v), v) == ApplyFilter(items, v)
  {
    var once := ActivateOnly(buttons, clicked);
    var twice := ActivateOnly(once, clicked);
    forall k | 0 <= k < |buttons|
      ensures twice[k] == once[k]
    {
      assert twice[k].classes == once[k].classes by {
        assert twice[k].classes - {Active} == once[k].classes - {Active};
        assert Active in twice[k].classes <==> Active in once[k].classes;
        SameApartFrom(twice[k].classes, once[k].classes, Active);
      }
    }
    var v := buttons[clicked].filter;
    var f := ApplyFilter(items, v);
    forall k | 0 <= k < |items|
      ensures ApplyFilter(f, v)[k] == f[k]
    {
      ClassifyIdempotent(items[k], v);
    }
  }

  /** Two class lists that agree apart from one class, and on that class too, are equal. */
  lemma SameApartFrom(a: ClassSet, b: ClassSet, name: string)
    requires a - {name} == b - {name}
    requires name in a <==> name in b
    ensures a == b
  {
    assert forall x :: x in a <==> x in b by {
      forall x ensures x in a <==> x in b {
        if x != name {
          assert x in a <==> x in a - {name};
          assert x in b <==> x in b - {name};
        }
      }
    }
  }

  /** With the value "hide" a second click undoes the first: an item that
      carried no class at all is hidden, then shown. */
  lemma HideValueNotIdempotent()
    ensures ApplyFilter(ApplyFilter([{}], Hide), Hide) != ApplyFilter([{}], Hide)
  {
  }

  /** Items tagged {design, web}, {web} and {design}: the value "design"
      shows the first and third and hides the second; "all" afterwards shows all three. */
  lemma DesignThenAll()
    ensures var items := [{"design", "web"}, {"web"}, {"design"}];
      var design := ApplyFilter(items, "design");
      var all := ApplyFilter(design, All);
      Show in design[0] && Hide in design[1] && Show in design[2] &&
      Show !in design[1] && Hide !in design[0] && Hide !in design[2] &&
      forall k :: 0 <= k < 3 ==> Show in all[k] && Hide !in all[k]
  {
  }

  /** The filter buttons and portfolio items of the page, as found at start-up. */
  class FilterBar {
    const buttons: array<Button>
    const items: array<ClassSet>

    constructor (buttons: array<Button>, items: array<ClassSet>)
      ensures this.buttons == buttons && this.items == items
    {
      this.buttons := buttons;
      this.items := items;
    }

    /** The click handler of button `clicked`. */
    method Click(clicked: nat)
      requires clicked < buttons.Length
      modifies buttons, items
      ensures buttons[..] == ActivateOnly(old(buttons[..]), clicked)
      ensures items[..] == ApplyFilter(old(items[..]), old(buttons[clicked].filter))
    {
      var i := 0;
      while i < buttons.Length
        invariant 0 <= i <= buttons.Length
        invariant forall k :: 0 <= k < i ==> buttons[k] == Deactivate(old(buttons[k]))
        invariant forall k :: i <= k < buttons.Length ==> buttons[k] == old(buttons[k])
        invariant items[..] == old(items[..])
      {
        buttons[i] := Deactivate(buttons[i]);
        i := i + 1;
      }
      buttons[clicked] := buttons[clicked].(classes := Add(buttons[clicked].classes, Active));
      var filterValue := buttons[clicked].filter;
      ghost var expected := ActivateOnly(old(buttons[..]), clicked);
      forall k | 0 <= k < buttons.Length
        ensures buttons[k] == expected[k]
      {
        SameApartFrom(buttons[k].classes, expected[k].classes, Active);
      }

      var j := 0;
      while j < items.Length
        invariant 0 <= j <= items.Length
        invariant forall k :: 0 <= k < j ==> items[k] == Classify(old(items[k]), filterValue)
        invariant forall k :: j <= k < items.Length ==> items[k] == old(items[k])
        invariant buttons[..] == ActivateOnly(old(buttons[..]), clicked)
      {
        items[j] := Classify(items[j], filterValue);
        j := j + 1;
      }
    }
  }
}
