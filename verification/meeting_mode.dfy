/** Meeting mode: a local buffer of captured items, each routed to Today or
    to the Parking Lot, split into the two lists when the meeting ends. */
module MeetingMode {
  import opened Types
  import opened Text

  datatype Routing = RouteParking | RouteToday

  datatype MeetingItem = MeetingItem(id: string, title: string, note: string, routing: Routing)

  /** A partial update of an item: only the fields that are Some change. */
  datatype ItemPatch = ItemPatch(id: Option<string>, title: Option<string>, note: Option<string>, routing: Option<Routing>)

  /** What ending the meeting hands on for one item: its title and note as
      typed (the generated id and `completed` flag are never read). */
  datatype Draft = Draft(title: string, note: string)

  /** A fresh item: empty title and note, routed to the Parking Lot. */
  function NewItem(freshId: string): MeetingItem {
    MeetingItem(freshId, "", "", RouteParking)
  }

  /** `addItem`: one fresh item after the existing ones. */
  function AddItem(items: seq<MeetingItem>, freshId: string): (r: seq<MeetingItem>)
    ensures |r| == |items| + 1 && r[..|items|] == items
    ensures r[|items|] == NewItem(freshId)
  {
    items + [NewItem(freshId)]
  }

  function PatchItem(item: MeetingItem, p: ItemPatch): MeetingItem {
    MeetingItem(p.id.GetOr(item.id), p.title.GetOr(item.title), p.note.GetOr(item.note), p.routing.GetOr(item.routing))
  }

  /** `updateItem`: every item with the id gets the patch; length and order
      are kept and no other item changes. */
  function UpdateItem(items: seq<MeetingItem>, id: string, p: ItemPatch): (r: seq<MeetingItem>)
    ensures |r| == |items|
    ensures forall i :: 0 <= i < |items| ==> r[i] == if items[i].id == id then PatchItem(items[i], p) else items[i]
  {
    if items == [] then []
    else [if items[0].id == id then PatchItem(items[0], p) else items[0]] + UpdateItem(items[1..], id, p)
  }

  /** `deleteItem`: the items with the id are dropped, the rest kept. */
  function DeleteItem(items: seq<MeetingItem>, id: string): (r: seq<MeetingItem>)
    ensures |r| <= |items|
    ensures forall i :: 0 <= i < |r| ==> r[i].id != id
  {
    if items == [] then []
    else (if items[0].id == id then [] else [items[0]]) + DeleteItem(items[1..], id)
  }

  /** Deleting keeps every other item exactly as often as before. */
  lemma {:induction false} DeleteItemKeeps(items: seq<MeetingItem>, id: string)
    ensures forall x: MeetingItem :: x.id != id ==> multiset(DeleteItem(items, id))[x] == multiset(items)[x]
  {
    if items != [] {
      DeleteItemKeeps(items[1..], id);
      assert items == [items[0]] + items[1..];
    }
  }

  /** Deleting distributes over concatenation: the kept items stay in order. */
  lemma {:induction false} DeleteItemAppend(a: seq<MeetingItem>, b: seq<MeetingItem>, id: string)
    ensures DeleteItem(a + b, id) == DeleteItem(a, id) + DeleteItem(b, id)
  {
    if a != [] {
      var head := if a[0].id == id then [] else [a[0]];
      assert (a + b)[0] == a[0];
      assert (a + b)[1..] == a[1..] + b;
      assert DeleteItem(a + b, id) == head + DeleteItem(a[1..] + b, id);
      DeleteItemAppend(a[1..], b, id);
      assert DeleteItem(a, id) == head + DeleteItem(a[1..], id);
    } else {
      assert a + b == b;
    }
  }

  /** Deleting a freshly added item gives back the list it was added to. */
  lemma DeleteUndoesAdd(items: seq<MeetingItem>, freshId: string)
    requires forall i :: 0 <= i < |items| ==> items[i].id != freshId
    ensures DeleteItem(AddItem(items, freshId), freshId) == items
  {
    DeleteItemAppend(items, [NewItem(freshId)], freshId);
    DeleteNothing(items, freshId);
  }

  lemma {:induction false} DeleteNothing(items: seq<MeetingItem>, id: string)
    requires forall i :: 0 <= i < |items| ==> items[i].id != id
    ensures DeleteItem(items, id) == items
  {
    if items != [] {
      DeleteNothing(items[1..], id);
    }
  }

  /** Whether an item leaves the meeting for the given list: routed there,
      with a title that is not blank once trimmed. */
  predicate Sends(item: MeetingItem, routing: Routing) {
    item.routing == routing && !Blank(item.title)
  }

  /** The drafts for one list: the items that `Sends` there, in order, with
      title and note passed on untrimmed. */
  function Routed(items: seq<MeetingItem>, routing: Routing): (r: seq<Draft>)
    ensures |r| <= |items|
  {
    if items == [] then []
    else (if Sends(items[0], routing) then [Draft(items[0].title, items[0].note)] else []) + Routed(items[1..], routing)
  }

  /** Ending the meeting: the Today drafts and the Parking Lot drafts. */
  datatype Split = Split(today: seq<Draft>, parking: seq<Draft>)

  /** Every item with a non-blank title lands in exactly one of the two
      lists, and blank items in neither: the lists together are as long as
      the number of non-blank items. */
  function EndSplit(items: seq<MeetingItem>): (r: Split)
    ensures |r.today| + |r.parking| == CountNonBlank(items)
  {
    SplitPartition(items);
    Split(Routed(items, RouteToday), Routed(items, RouteParking))
  }

  function CountNonBlank(items: seq<MeetingItem>): nat {
    if items == [] then 0 else (if Blank(items[0].title) then 0 else 1) + CountNonBlank(items[1..])
  }

  /** The End button is enabled when some item has a non-blank title. */
  predicate CanEndMeeting(items: seq<MeetingItem>)
    ensures CanEndMeeting(items) <==> exists i :: 0 <= i < |items| && !Blank(items[i].title)
  {
    NonBlankCounted(items);
    CountNonBlank(items) != 0
  }

  /** The count of non-blank items is positive exactly when one exists. */
  lemma {:induction false} NonBlankCounted(items: seq<MeetingItem>)
    ensures CountNonBlank(items) != 0 <==> exists i :: 0 <= i < |items| && !Blank(items[i].title)
  {
    if items != [] {
      NonBlankCounted(items[1..]);
      if CountNonBlank(items[1..]) != 0 {
        var i :| 0 <= i < |items[1..]| && !Blank(items[1..][i].title);
        assert !Blank(items[i + 1].title);
      }
      if exists i :: 0 <= i < |items| && !Blank(items[i].title) {
        var i :| 0 <= i < |items| && !Blank(items[i].title);
        if i > 0 {
          assert !Blank(items[1..][i - 1].title);
        }
      }
    }
  }

  /** Routing splits the non-blank items between the two lists. */
  lemma {:induction false} SplitPartition(items: seq<MeetingItem>)
    ensures |Routed(items, RouteToday)| + |Routed(items, RouteParking)| == CountNonBlank(items)
  {
    if items != [] {
      SplitPartition(items[1..]);
    }
  }

  /** Routing distributes over concatenation: each list keeps the order of
      the items (by definition a single item contributes its own title and
      note, untrimmed, exactly when it `Sends` there). */
  lemma {:induction false} RoutedAppend(a: seq<MeetingItem>, b: seq<MeetingItem>, routing: Routing)
    ensures Routed(a + b, routing) == Routed(a, routing) + Routed(b, routing)
  {
    if a != [] {
      var head := if Sends(a[0], routing) then [Draft(a[0].title, a[0].note)] else [];
      assert (a + b)[0] == a[0];
      assert (a + b)[1..] == a[1..] + b;
      assert Routed(a + b, routing) == head + Routed(a[1..] + b, routing);
      RoutedAppend(a[1..], b, routing);
      assert Routed(a, routing) == head + Routed(a[1..], routing);
      assert head + (Routed(a[1..], routing) + Routed(b, routing))
        == (head + Routed(a[1..], routing)) + Routed(b, routing);
    } else {
      assert a + b == b;
    }
  }

  /** Every sending item has its draft in its list. */
  lemma {:induction false} SendingItemIsRouted(items: seq<MeetingItem>, routing: Routing, i: nat)
    requires i < |items| && Sends(items[i], routing)
    ensures Draft(items[i].title, items[i].note) in Routed(items, routing)
  {
    if i > 0 {
      SendingItemIsRouted(items[1..], routing, i - 1);
      assert items[1..][i - 1] == items[i];
    }
  }

  /** The End button is enabled exactly when ending would send something. */
  lemma EndEnabledIffSomethingToSend(items: seq<MeetingItem>)
    ensures CanEndMeeting(items) <==> EndSplit(items).today != [] || EndSplit(items).parking != []
  {
    var s := EndSplit(items);
    assert |s.today| + |s.parking| == CountNonBlank(items);
  }

  /** `formatDuration`: whole minutes unpadded (no leading zero unless the
      field is the single digit 0), a colon, the remaining seconds padded to
      two digits; it reads back as the number of seconds. */
  function FormatDuration(seconds: nat): (r: string)
    ensures IsClock(r, seconds / 60, seconds % 60)
    ensures |r| > 4 ==> r[0] != '0'
    ensures ParseClock(r) == seconds
    ensures |r| == 4 <==> seconds < 600
  {
    ClockRoundTrip(NatToString(seconds / 60), seconds);
    NatToString(seconds / 60) + ":" + PadStart2(NatToString(seconds % 60))
  }
}
