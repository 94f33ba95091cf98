/** Per-block sort order of the ticket listing: the `so_<block>` token
    `<item>_<asc|desc>` is resolved against the fixed registry of sortable
    columns, with fallbacks for anything malformed. */
module Sorting {
  import opened Results
  import Php

  /** The registry of sortable columns. */
  datatype SortItem =
    | TicketId | TicketName | Replies | AllReplies | Urgency
    | Updated | Assigned | Status | Starter | LastReply

  datatype Direction = Asc | Desc

  /** The registry key of each sortable column, as it appears in tokens. */
  function ItemName(i: SortItem): string {
    match i
    case TicketId => "ticketid"
    case TicketName => "ticketname"
    case Replies => "replies"
    case AllReplies => "allreplies"
    case Urgency => "urgency"
    case Updated => "updated"
    case Assigned => "assigned"
    case Status => "status"
    case Starter => "starter"
    case LastReply => "lastreply"
  }

  function DirectionName(d: Direction): string {
    match d
    case Asc => "asc"
    case Desc => "desc"
  }

  /** The registry entry a token part names, if any. */
  function ItemNamed(s: string): (r: Option<SortItem>)
    ensures r.Some? ==> ItemName(r.value) == s
  {
    if s == "ticketid" then Some(TicketId)
    else if s == "ticketname" then Some(TicketName)
    else if s == "replies" then Some(Replies)
    else if s == "allreplies" then Some(AllReplies)
    else if s == "urgency" then Some(Urgency)
    else if s == "updated" then Some(Updated)
    else if s == "assigned" then Some(Assigned)
    else if s == "status" then Some(Status)
    else if s == "starter" then Some(Starter)
    else if s == "lastreply" then Some(LastReply)
    else None
  }

  function DirectionNamed(s: string): (r: Option<Direction>)
    ensures r.Some? ==> DirectionName(r.value) == s
  {
    if s == "asc" then Some(Asc) else if s == "desc" then Some(Desc) else None
  }

  /** Every registry entry is found again from its own key. */
  lemma ItemNamedInverse(i: SortItem)
    ensures ItemNamed(ItemName(i)) == Some(i)
    ensures '_' !in ItemName(i) && |ItemName(i)| > 0
  {
  }

  lemma DirectionNamedInverse(d: Direction)
    ensures DirectionNamed(DirectionName(d)) == Some(d)
    ensures '_' !in DirectionName(d)
  {
  }

  /** A token with exactly one underscore, which is not its first character. */
  predicate WellFormed(token: string) {
    Php.Count(token, '_') == 1 && token[0] != '_'
  }

  /** The part before the underscore of a well-formed token. */
  function ItemPart(token: string): string
    requires WellFormed(token)
  {
    token[..Php.IndexOf(token, '_')]
  }

  /** The part after the underscore of a well-formed token. */
  function DirectionPart(token: string): string
    requires WellFormed(token)
  {
    token[Php.IndexOf(token, '_') + 1..]
  }

  /** The resolved sort of a block; `addLink` says whether the token is kept as
      the sanitised `so_<block>` parameter that later links carry. */
  datatype SortSpec = SortSpec(item: SortItem, direction: Direction, addLink: bool)

  /** The direction used when the token is malformed: newest first in the
      closed-ticket and recycle-bin listings, oldest first elsewhere. */
  function DefaultDirection(subAction: string): Direction {
    if subAction == "closedtickets" || subAction == "recyclebin" then Desc else Asc
  }

  /** The token a block is sorted by: the request's `so_<block>` when present,
      the viewer's stored preference when that is not empty, nothing otherwise. */
  function ChooseToken(requested: Option<string>, preference: string): string {
    if requested.Some? then requested.value
    else if Php.Empty(preference) then ""
    else preference
  }

  /** Resolve a sort token. A well-formed token with a registered item and a
      valid direction is taken as it is and kept for links. An unregistered
      item falls back to `updated`, an invalid direction to ascending, and in
      both cases the token is dropped. A malformed token gives `updated` in the
      listing's default direction. */
  function ParseSort(token: string, subAction: string): (r: SortSpec)
    ensures r.addLink <==> WellFormed(token) && ItemNamed(ItemPart(token)).Some?
                                             && DirectionNamed(DirectionPart(token)).Some?
    ensures r.addLink ==> token == ItemName(r.item) + "_" + DirectionName(r.direction)
    ensures !WellFormed(token) ==> r == SortSpec(Updated, DefaultDirection(subAction), false)
    ensures WellFormed(token) && ItemNamed(ItemPart(token)).None? ==> r.item == Updated
    ensures WellFormed(token) && DirectionNamed(DirectionPart(token)).None? ==> r.direction == Asc
    ensures WellFormed(token) && ItemNamed(ItemPart(token)).Some? ==> r.item == ItemNamed(ItemPart(token)).value
    ensures WellFormed(token) && DirectionNamed(DirectionPart(token)).Some?
            ==> r.direction == DirectionNamed(DirectionPart(token)).value
  {
    if |token| > 0 && '_' in token && Php.IndexOf(token, '_') > 0 && Php.Count(token, '_') == 1 then
      var i := Php.IndexOf(token, '_');
      assert token == token[..i] + "_" + token[i + 1..];
      var item := ItemNamed(token[..i]);
      var dir := DirectionNamed(token[i + 1..]);
      SortSpec(if item.Some? then item.value else Updated,
               if dir.Some? then dir.value else Asc,
               item.Some? && dir.Some?)
    else
      SortSpec(Updated, DefaultDirection(subAction), false)
  }

  /** The sort of one block, from its request parameter or stored preference. */
  function BlockSort(requested: Option<string>, preference: string, subAction: string): (r: SortSpec)
    ensures requested.None? && Php.Empty(preference) ==> r == SortSpec(Updated, DefaultDirection(subAction), false)
    ensures requested.Some? ==> r == ParseSort(requested.value, subAction)
    ensures requested.None? && !Php.Empty(preference) ==> r == ParseSort(preference, subAction)
  {
    ParseSort(ChooseToken(requested, preference), subAction)
  }

  /** The token a column-header link puts in `so_<block>` for an item and direction. */
  function LinkToken(i: SortItem, d: Direction): string {
    ItemName(i) + "_" + DirectionName(d)
  }

  /** Joining two underscore-free parts, the first non-empty, gives a
      well-formed token that splits back into the same parts. */
  lemma {:induction false} SplitJoined(a: string, b: string)
    requires |a| > 0 && '_' !in a && '_' !in b
    ensures WellFormed(a + "_" + b)
    ensures ItemPart(a + "_" + b) == a && DirectionPart(a + "_" + b) == b
  {
    var t := a + "_" + b;
    Php.CountAppend(a, "_", '_');
    Php.CountAppend(a + "_", b, '_');
    assert t[..|a|] == a;
    assert t[|a|] == '_';
    var k := Php.IndexOf(t, '_');
    assert k == |a|;
    assert t[k + 1..] == b;
  }

  /** Every column-header link token resolves to exactly the item and
      direction it was built from, and is kept for further links. */
  lemma LinkTokenRoundTrip(i: SortItem, d: Direction, subAction: string)
    ensures ParseSort(LinkToken(i, d), subAction) == SortSpec(i, d, true)
  {
    ItemNamedInverse(i);
    DirectionNamedInverse(d);
    SplitJoined(ItemName(i), DirectionName(d));
  }

  /** Worked case: a valid token is taken as given. */
  lemma ParseValidExample()
    ensures ParseSort("urgency_desc", "main") == SortSpec(Urgency, Desc, true)
  {
    LinkTokenRoundTrip(Urgency, Desc, "main");
    assert LinkToken(Urgency, Desc) == "urgency_desc";
  }

  /** Worked case: an unknown item keeps the requested direction but drops the token. */
  lemma ParseUnknownItemExample()
    ensures ParseSort("bogus_desc", "main") == SortSpec(Updated, Desc, false)
  {
    SplitJoined("bogus", "desc");
    assert "bogus" + "_" + "desc" == "bogus_desc";
  }

  /** Worked case: a known item with an invalid direction sorts ascending. */
  lemma ParseBadDirectionExample()
    ensures ParseSort("urgency_up", "recyclebin") == SortSpec(Urgency, Asc, false)
  {
    SplitJoined("urgency", "up");
    assert "urgency" + "_" + "up" == "urgency_up";
  }

  /** Worked case: a token without an underscore gives the listing's default. */
  lemma ParseNoUnderscoreExample()
    ensures ParseSort("urgency", "closedtickets") == SortSpec(Updated, Desc, false)
  {
  }

  /** Worked case: a token starting with its underscore gives the default. */
  lemma ParseLeadingUnderscoreExample()
    ensures ParseSort("_desc", "main") == SortSpec(Updated, Asc, false)
  {
  }

  /** Worked case: a token with two underscores gives the default. */
  lemma ParseTwoUnderscoresExample()
    ensures ParseSort("a_b_c", "recyclebin") == SortSpec(Updated, Desc, false)
  {
    assert "a_b_c" == "a_" + "b_c";
    Php.CountAppend("a_", "b_c", '_');
    assert Php.Count("a_", '_') == 1;
    assert Php.Count("b_c", '_') >= 1;
  }
}
