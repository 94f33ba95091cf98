/** The names and links shown for the people on a listed ticket: its starter,
    the staff member it is assigned to, and whoever replied last. Current
    member names come from the profiles loaded for the listing, a partial map
    from member id to name; a member who is gone falls back to the name the
    ticket row carried, or to the unassigned marker. */
module Identities {

  /** What is shown for a person: a name without a link, a link to a member
      profile, or the highlighted unassigned marker. */
  datatype Display = PlainName(text: string) | ProfileLink(name: string, member: int) | UnassignedMarker(text: string)

  /** A person on a ticket row: member id (0 for nobody), name, and display. */
  datatype Person = Person(id: int, name: string, shown: Display)

  /** The visible text of a display. */
  function DisplayText(d: Display): string {
    match d
    case PlainName(t) => t
    case ProfileLink(n, _) => n
    case UnassignedMarker(t) => t
  }

  /** The starter: with a loaded profile, its current name linked to the
      profile; otherwise the name from the ticket row, unlinked. */
  function ResolveStarter(id: int, rowName: string, profiles: map<int, string>): (p: Person)
    ensures p.id == id && DisplayText(p.shown) == p.name
    ensures p.shown.ProfileLink? <==> id in profiles
    ensures p.shown.ProfileLink? ==> p.shown.member == id && p.name == profiles[id]
    ensures id !in profiles ==> p.name == rowName && p.shown == PlainName(rowName)
  {
    if id in profiles then Person(id, profiles[id], ProfileLink(profiles[id], id))
    else Person(id, rowName, PlainName(rowName))
  }

  /** The assignee: nobody, or a member without a loaded profile, shows the
      unassigned marker as name and link; otherwise the current name linked
      to the profile. */
  function ResolveAssigned(id: int, profiles: map<int, string>, unassigned: string): (p: Person)
    ensures p.id == id && DisplayText(p.shown) == p.name
    ensures p.shown.ProfileLink? <==> id != 0 && id in profiles
    ensures p.shown.ProfileLink? ==> p.shown.member == id && p.name == profiles[id]
    ensures !p.shown.ProfileLink? ==> p.shown == UnassignedMarker(unassigned) && p.name == unassigned
  {
    if id == 0 || id !in profiles then Person(id, unassigned, UnassignedMarker(unassigned))
    else Person(id, profiles[id], ProfileLink(profiles[id], id))
  }

  /** The last respondent: like the starter, except that member id 0 (a
      guest) is never looked up. */
  function ResolveRespondent(id: int, rowName: string, profiles: map<int, string>): (p: Person)
    ensures p.id == id && DisplayText(p.shown) == p.name
    ensures p.shown.ProfileLink? <==> id != 0 && id in profiles
    ensures p.shown.ProfileLink? ==> p.shown.member == id && p.name == profiles[id]
    ensures !p.shown.ProfileLink? ==> p.name == rowName && p.shown == PlainName(rowName)
  {
    if id == 0 || id !in profiles then Person(id, rowName, PlainName(rowName))
    else Person(id, profiles[id], ProfileLink(profiles[id], id))
  }

  /** The three people of one listed ticket. */
  datatype People = People(starter: Person, assignee: Person, respondent: Person)

  function ResolvePeople(starterId: int, starterName: string, assignedId: int,
                         respondentId: int, respondentName: string,
                         profiles: map<int, string>, unassigned: string): People
  {
    People(ResolveStarter(starterId, starterName, profiles),
           ResolveAssigned(assignedId, profiles, unassigned),
           ResolveRespondent(respondentId, respondentName, profiles))
  }

  /** A ticket's people depend only on the profiles of its own three member
      ids: loading more or other members' profiles changes nothing. */
  lemma OnlyOwnProfilesMatter(starterId: int, starterName: string, assignedId: int,
                              respondentId: int, respondentName: string,
                              p1: map<int, string>, p2: map<int, string>, unassigned: string)
    requires forall id :: id in {starterId, assignedId, respondentId} ==>
               (id in p1 <==> id in p2) && (id in p1 ==> p1[id] == p2[id])
    ensures ResolvePeople(starterId, starterName, assignedId, respondentId, respondentName, p1, unassigned)
            == ResolvePeople(starterId, starterName, assignedId, respondentId, respondentName, p2, unassigned)
  {
    assert starterId in {starterId, assignedId, respondentId};
    assert assignedId in {starterId, assignedId, respondentId};
    assert respondentId in {starterId, assignedId, respondentId};
  }

  /** Starter and respondent differ only on member id 0: a starter id 0 with
      a loaded profile is linked, a respondent id 0 never is. */
  lemma StarterAndRespondentAgreeOnMembers(id: int, rowName: string, profiles: map<int, string>)
    requires id != 0
    ensures ResolveStarter(id, rowName, profiles) == ResolveRespondent(id, rowName, profiles)
  {
  }
}
