/** The HTML message-list builder (common_core/generic/messages.py). */
module Messages {
  import opened Wrappers
  import opened Text

  /** What explode_messages is given: a str, or anything else, which it
      iterates. An iterable is given by the str() of the items it yields and
      whether iterating it raises at some point, a value that is not iterable
      being one that raises at once. */
  datatype MessageInput = Message(message: string) | Iterable(items: seq<string>, raises: bool)

  function Opening(cssClass: string): string
  {
    "<div class='" + cssClass + " my-8 p-4'>"
  }

  function ListOpening(cssClass: string, wrapperCssClass: string): string
  {
    Opening(cssClass) + "<ul class='" + wrapperCssClass + "'>"
  }

  const ListClosing: string := "</ul></div>"

  function ItemOpening(itemCssClass: string): string
  {
    "<li class='" + itemCssClass + " my-2'>"
  }

  /** One list element, the message inserted verbatim. */
  function Item(itemCssClass: string, m: string): string
  {
    ItemOpening(itemCssClass) + m + "</li>"
  }

  /** The list elements for the items, in order. */
  function ItemsHtml(items: seq<string>, itemCssClass: string): string
  {
    if items == [] then "" else Item(itemCssClass, items[0]) + ItemsHtml(items[1..], itemCssClass)
  }

  lemma {:induction false} ItemsHtmlSnoc(items: seq<string>, m: string, itemCssClass: string)
    ensures ItemsHtml(items + [m], itemCssClass) == ItemsHtml(items, itemCssClass) + Item(itemCssClass, m)
  {
    if items == [] {
      assert [m][1..] == [];
    } else {
      assert (items + [m])[1..] == items[1..] + [m];
      ItemsHtmlSnoc(items[1..], m, itemCssClass);
    }
  }

  /** What explode_messages returns. */
  function Exploded(messages: MessageInput, cssClass: string, wrapperCssClass: string, itemCssClass: string): (r: string)
    ensures messages.Message? ==> StartsWith(r, Opening(cssClass)) && EndsWith(r, "</div>")
    ensures messages.Message? ==> |r| == |Opening(cssClass)| + |messages.message| + 6
    ensures messages.Message? ==> r[|Opening(cssClass)|..|r| - 6] == messages.message
    ensures messages.Iterable? && messages.raises ==> r == ""
    ensures messages.Iterable? && !messages.raises ==> StartsWith(r, ListOpening(cssClass, wrapperCssClass)) && EndsWith(r, ListClosing)
  {
    match messages
    case Message(m) =>
      var r := Opening(cssClass) + m + "</div>";
      assert r[..|Opening(cssClass)|] == Opening(cssClass);
      assert r[|r| - 6..] == "</div>";
      r
    case Iterable(items, raises) =>
      if raises then ""
      else
        var r := ListOpening(cssClass, wrapperCssClass) + ItemsHtml(items, itemCssClass) + ListClosing;
        assert r[..|ListOpening(cssClass, wrapperCssClass)|] == ListOpening(cssClass, wrapperCssClass);
        assert r[|r| - |ListClosing|..] == ListClosing;
        r
  }

  /** explode_messages: a str is wrapped at once; anything else is iterated,
      one list element appended per item. */
  method ExplodeMessages(messages: MessageInput, cssClass: string := "bg-danger", wrapperCssClass: string := "",
                         itemCssClass: string := "text-danger-100")
    returns (r: string)
    ensures r == Exploded(messages, cssClass, wrapperCssClass, itemCssClass)
  {
    if messages.Message? {
      return "<div class='" + cssClass + " my-8 p-4'>" + messages.message + "</div>";
    }
    var acc := "<div class='" + cssClass + " my-8 p-4'><ul class='" + wrapperCssClass + "'>";
    assert acc == ListOpening(cssClass, wrapperCssClass);
    var items := messages.items;
    for i := 0 to |items|
      invariant acc == ListOpening(cssClass, wrapperCssClass) + ItemsHtml(items[..i], itemCssClass)
    {
      var li := "<li class='" + itemCssClass + " my-2'>" + items[i] + "</li>";
      assert li == Item(itemCssClass, items[i]);
      assert items[..i + 1] == items[..i] + [items[i]];
      ItemsHtmlSnoc(items[..i], items[i], itemCssClass);
      acc := acc + li;
    }
    if messages.raises {
      return "";
    }
    assert items[..|items|] == items;
    acc := acc + "</ul></div>";
    r := acc;
  }

  // ---------------------------------------------------------------------------
  // Reading the items back.

  /** The messages of a run of list elements, None if it is not one. */
  function ParseItems(s: string, itemCssClass: string): Option<seq<string>>
    decreases |s|
  {
    if s == [] then Some([])
    else if !StartsWith(s, ItemOpening(itemCssClass)) then None
    else
      var rest := s[|ItemOpening(itemCssClass)|..];
      var k := UpTo(rest, {'<'});
      if !StartsWith(rest[k..], "</li>") then None
      else
        match ParseItems(rest[k + 5..], itemCssClass)
        case None => None
        case Some(ms) => Some([rest[..k]] + ms)
  }

  /** The messages of a whole list, None if it is not one. */
  function ParseList(html: string, cssClass: string, wrapperCssClass: string, itemCssClass: string): Option<seq<string>>
  {
    var opening := ListOpening(cssClass, wrapperCssClass);
    if |html| >= |opening| + |ListClosing| && StartsWith(html, opening) && EndsWith(html, ListClosing)
    then ParseItems(html[|opening|..|html| - |ListClosing|], itemCssClass)
    else None
  }

  lemma {:induction false} ParseItemsRoundTrip(items: seq<string>, itemCssClass: string)
    requires forall i :: 0 <= i < |items| ==> Free(items[i], '<')
    ensures ParseItems(ItemsHtml(items, itemCssClass), itemCssClass) == Some(items)
    decreases |items|
  {
    if items != [] {
      var m := items[0];
      var tail := ItemsHtml(items[1..], itemCssClass);
      var opening := ItemOpening(itemCssClass);
      var s := ItemsHtml(items, itemCssClass);
      assert s == opening + (m + "</li>" + tail);
      assert s[..|opening|] == opening;
      var rest := s[|opening|..];
      assert rest == m + "</li>" + tail;
      assert rest[|m|] == '<';
      assert rest[..|m|] == m;
      UpToFirst(rest, {'<'}, |m|);
      var k := UpTo(rest, {'<'});
      assert rest[k..] == "</li>" + tail;
      assert rest[k..][..5] == "</li>";
      assert rest[k + 5..] == tail;
      ParseItemsRoundTrip(items[1..], itemCssClass);
      assert [m] + items[1..] == items;
    }
  }

  /** Items without '<' are inserted verbatim and in order: they can be read
      back from the list that explode_messages builds, one element each. */
  lemma ExplodedRoundTrip(items: seq<string>, cssClass: string, wrapperCssClass: string, itemCssClass: string)
    requires forall i :: 0 <= i < |items| ==> Free(items[i], '<')
    ensures ParseList(Exploded(Iterable(items, false), cssClass, wrapperCssClass, itemCssClass), cssClass, wrapperCssClass, itemCssClass) == Some(items)
  {
    var opening := ListOpening(cssClass, wrapperCssClass);
    var body := ItemsHtml(items, itemCssClass);
    var html := Exploded(Iterable(items, false), cssClass, wrapperCssClass, itemCssClass);
    assert html == opening + body + ListClosing;
    assert html[|opening|..|html| - |ListClosing|] == body;
    ParseItemsRoundTrip(items, itemCssClass);
  }

  /** The number of list elements parsed back is the number of items; an
      empty iterable gives an empty list. */
  lemma ExplodedItemCount(items: seq<string>, cssClass: string, wrapperCssClass: string, itemCssClass: string)
    requires forall i :: 0 <= i < |items| ==> Free(items[i], '<')
    ensures var parsed := ParseList(Exploded(Iterable(items, false), cssClass, wrapperCssClass, itemCssClass), cssClass, wrapperCssClass, itemCssClass);
      parsed.Some? && |parsed.value| == |items|
    ensures items == [] ==> Exploded(Iterable(items, false), cssClass, wrapperCssClass, itemCssClass) == ListOpening(cssClass, wrapperCssClass) + ListClosing
  {
    ExplodedRoundTrip(items, cssClass, wrapperCssClass, itemCssClass);
  }
}
