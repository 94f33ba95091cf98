/** The per-row action icons of the ticket listing, gated by the ticket's
    status, whether the viewer started it, and the capabilities the viewer
    holds. Capability checks are a set of granted capabilities; the source
    checks two of them without naming the current department, so those are
    looked up in a second set. */
module RowActions {
  import opened Results

  datatype Capability =
    | MoveDeptAny | MoveDeptOwn
    | UnresolveAny | UnresolveOwn
    | RestoreAny | RestoreOwn | DeleteRecycling
    | AssignAny | AssignOwn
    | ResolveAny | ResolveOwn
    | TicketToTopic
    | DeleteAny | DeleteOwn
    | AccessRecycleBin

  /** Capabilities granted in the listing's department, and those granted by
      the checks that name no department. */
  datatype Grants = Grants(inDept: set<Capability>, unscoped: set<Capability>)

  /** A ticket's status as far as the actions care: resolved, in the recycle
      bin, or any other status level. */
  datatype Status = Closed | Deleted | OtherStatus(level: int)

  /** The facts about one listed ticket the actions depend on; member id 0
      means nobody. */
  datatype TicketRow = TicketRow(id: int, status: Status, starter: int, assignee: int, deletedReplies: int)

  /** Forum-wide settings: several departments in use; helpdesk-only mode
      (no forum to move tickets to). */
  datatype Settings = Settings(multiDept: bool, helpdeskOnly: bool)

  /** The wording of the assign icon. */
  datatype AssignLabel = AssignTicket | Reassign | Unassign | AssignSelf

  /** The action icons of a row, one variant per branch of the status. Each
      flag says whether that icon is shown (a hidden icon is an empty string
      in the listing); the assign icon of an open ticket exists only with a
      label. */
  datatype Actions =
    | ClosedActions(moveDept: bool, unresolve: bool)
    | DeletedActions(moveDept: bool, restore: bool, permaDelete: bool)
    | OpenActions(moveDept: bool, assign: Option<AssignLabel>, resolve: bool, toTopic: bool, delete: bool)

  /** The icon slots a row can carry. */
  datatype Icon = MoveDeptIcon | UnresolveIcon | RestoreIcon | PermaDeleteIcon | AssignIcon | ResolveIcon | ToTopicIcon | DeleteIcon

  /** Whether a row shows the given icon. */
  predicate Shown(a: Actions, x: Icon) {
    match a
    case ClosedActions(m, u) => (x == MoveDeptIcon && m) || (x == UnresolveIcon && u)
    case DeletedActions(m, r, p) => (x == MoveDeptIcon && m) || (x == RestoreIcon && r) || (x == PermaDeleteIcon && p)
    case OpenActions(m, asg, r, t, d) =>
      (x == MoveDeptIcon && m) || (x == AssignIcon && asg.Some?) || (x == ResolveIcon && r)
      || (x == ToTopicIcon && t) || (x == DeleteIcon && d)
  }

  /** An action open to holders of the `any` capability, and to the ticket's
      starter holding the `own` one. */
  predicate AnyOrOwn(any: Capability, own: Capability, isOwn: bool, granted: set<Capability>) {
    any in granted || (isOwn && own in granted)
  }

  /** The assign label: with assign-any, assign or reassign; with only
      assign-own, and the ticket unassigned or the viewer's own, assign-self
      or unassign; otherwise no assign icon. */
  function AssignLabelFor(row: TicketRow, viewer: int, g: Grants): (r: Option<AssignLabel>)
    ensures r.Some? <==> AssignAny in g.inDept
                         || (AssignOwn in g.inDept && (row.assignee == 0 || row.assignee == viewer))
    ensures r == Some(Unassign) <==> AssignAny !in g.inDept && AssignOwn in g.inDept && row.assignee == viewer
    ensures r == Some(Reassign) <==> AssignAny in g.inDept && row.assignee != 0
    ensures r == Some(AssignSelf) <==> (AssignAny !in g.inDept && AssignOwn in g.inDept
                                        && row.assignee == 0 && viewer != 0)
  {
    if AssignAny in g.inDept then
      Some(if row.assignee == 0 then AssignTicket else Reassign)
    else if AssignOwn in g.inDept && (row.assignee == 0 || row.assignee == viewer) then
      Some(if row.assignee == viewer then Unassign else AssignSelf)
    else
      None
  }

  /** The action icons of one row. Every row has the move-department icon,
      shown only with several departments and the matching capability. A
      resolved ticket adds the unresolve icon, a deleted one restore and
      permanent delete, and any other resolve, convert-to-topic and delete,
      plus assign when a label applies. */
  function RowActionsFor(row: TicketRow, viewer: int, g: Grants, s: Settings): (a: Actions)
    ensures a.ClosedActions? <==> row.status == Closed
    ensures a.DeletedActions? <==> row.status == Deleted
    ensures Shown(a, MoveDeptIcon) <==> s.multiDept && AnyOrOwn(MoveDeptAny, MoveDeptOwn, viewer == row.starter, g.inDept)
    ensures Shown(a, UnresolveIcon) <==> row.status == Closed && AnyOrOwn(UnresolveAny, UnresolveOwn, viewer == row.starter, g.inDept)
    ensures Shown(a, RestoreIcon) <==> row.status == Deleted && AnyOrOwn(RestoreAny, RestoreOwn, viewer == row.starter, g.inDept)
    ensures Shown(a, PermaDeleteIcon) <==> row.status == Deleted && DeleteRecycling in g.inDept
    ensures a.OpenActions? ==> a.assign == AssignLabelFor(row, viewer, g)
    ensures Shown(a, ResolveIcon) <==> row.status.OtherStatus? && AnyOrOwn(ResolveAny, ResolveOwn, viewer == row.starter, g.inDept)
    ensures Shown(a, ToTopicIcon) <==> (row.status.OtherStatus? && !s.helpdeskOnly && TicketToTopic in g.inDept
                                        && (row.deletedReplies == 0 || AccessRecycleBin in g.unscoped))
    ensures Shown(a, DeleteIcon) <==> (row.status.OtherStatus?
                                       && (DeleteAny in g.inDept || (viewer == row.starter && DeleteOwn in g.unscoped)))
  {
    var isOwn := viewer == row.starter;
    var move := s.multiDept && AnyOrOwn(MoveDeptAny, MoveDeptOwn, isOwn, g.inDept);
    match row.status
    case Closed =>
      ClosedActions(move, AnyOrOwn(UnresolveAny, UnresolveOwn, isOwn, g.inDept))
    case Deleted =>
      DeletedActions(move, AnyOrOwn(RestoreAny, RestoreOwn, isOwn, g.inDept), DeleteRecycling in g.inDept)
    case OtherStatus(_) =>
      OpenActions(move, AssignLabelFor(row, viewer, g),
                  AnyOrOwn(ResolveAny, ResolveOwn, isOwn, g.inDept),
                  !s.helpdeskOnly && TicketToTopic in g.inDept
                  && (row.deletedReplies == 0 || AccessRecycleBin in g.unscoped),
                  DeleteAny in g.inDept || (isOwn && DeleteOwn in g.unscoped))
  }

  /** One set of grants includes another in both scopes. */
  predicate GrantsIncluded(g: Grants, h: Grants) {
    g.inDept <= h.inDept && g.unscoped <= h.unscoped
  }

  /** More capabilities never take an icon away: every icon shown under `g`
      is shown under any larger `h`. */
  lemma MoreGrantsShowMore(row: TicketRow, viewer: int, g: Grants, h: Grants, s: Settings)
    requires GrantsIncluded(g, h)
    ensures forall x :: Shown(RowActionsFor(row, viewer, g, s), x) ==> Shown(RowActionsFor(row, viewer, h, s), x)
  {
  }

  /** Without any capability a row shows no icon at all. */
  lemma NoGrantsNoIcons(row: TicketRow, viewer: int, s: Settings)
    ensures forall x :: !Shown(RowActionsFor(row, viewer, Grants({}, {}), s), x)
  {
  }
}
