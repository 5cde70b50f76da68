/**
 * The part of a WCIF competition document the classifier reads. A field the
 * JSON may leave out is an `Option`; the accessors below supply the defaults
 * the classifier uses for missing fields.
 */
module Wcif {
  import opened Wrappers

  datatype Event = Event(id: string, name: Option<string>)

  /** A registration record; only its status matters here. */
  datatype Registration = Registration(status: Option<string>)

  /** A personal best; a missing ranking is unbounded, so it passes no `<=` test. */
  datatype PersonalBest = PersonalBest(
    eventId: Option<string>,
    kind: Option<string>,
    worldRanking: Option<int>,
    nationalRanking: Option<int>,
    best: Option<int>)

  datatype Person = Person(
    name: Option<string>,
    wcaId: Option<string>,
    registration: Option<Registration>,
    personalBests: Option<seq<PersonalBest>>)

  datatype Competition = Competition(events: seq<Event>, persons: seq<Person>)

  const Accepted: string := "accepted"
  const NoName: string := "[No Name]"
  const NoWcaId: string := "[No WCA ID]"

  /** The key an event's list is filed under: its name, else its id. */
  function DisplayName(e: Event): string {
    e.name.GetOr(e.id)
  }

  /** Only a person whose registration exists and has status "accepted" takes part. */
  predicate IsAccepted(p: Person) {
    p.registration.Some? && p.registration.value.status == Some(Accepted)
  }

  function NameOf(p: Person): string {
    p.name.GetOr(NoName)
  }

  /** `person.get('wcaId') or '[No WCA ID]'`: an empty id falls back too. */
  function WcaIdOf(p: Person): (id: string)
    ensures id != ""
    ensures id == NoWcaId <==> p.wcaId == None || p.wcaId == Some("") || p.wcaId == Some(NoWcaId)
  {
    if p.wcaId == None || p.wcaId == Some("") then NoWcaId else p.wcaId.value
  }

  function BestsOf(p: Person): seq<PersonalBest> {
    p.personalBests.GetOr([])
  }
}
