/** The Event record (the Mongoose schema of `Event`): its status
    enumeration, its defaults, its required fields and the trimming applied
    to `name` and `venue`. `createdAt`/`updatedAt` timestamps are not
    modelled. */
module EventModel {

  import opened Wrappers
  import opened Hex
  import JsText

  /** The values the `enum` validator admits for `status`, by their stored
      spellings "Draft", "Active", "Completed" and "Cancelled". */
  datatype Status = Draft | Active | Completed | Cancelled

  const DefaultStatus: Status := Active
  const DefaultDescription: string := "No specific food details provided."

  /** Dates are integer timestamps. `id` is the document's `_id`. */
  datatype Event = Event(
    id: ObjectId,
    name: string,
    date: int,
    venue: string,
    description: string,
    organizer: ObjectId,
    status: Status)

  /** What every stored event satisfies: the required strings are present
      (Mongoose's `required` refuses the empty string) and already trimmed
      (see `JsText.TrimmedIsTrimFixed`). */
  predicate Valid(e: Event) {
    && e.name != "" && JsText.IsTrimmed(e.name)
    && e.venue != "" && JsText.IsTrimmed(e.venue)
  }

  /** `new Event({...})` followed by validation: setters trim `name` and
      `venue`, an absent `description` takes its default, `status` takes
      its default, then the `required` validators run on the trimmed
      values. None stands for the ValidationError. */
  function Build(id: ObjectId, name: string, date: int, venue: string,
                 description: Option<string>, organizer: ObjectId): (r: Option<Event>)
    ensures r.Some? <==> !JsText.AllWhitespace(name) && !JsText.AllWhitespace(venue)
    ensures r.Some? ==> Valid(r.value)
    ensures r.Some? ==> r.value.id == id && r.value.date == date && r.value.organizer == organizer
    ensures r.Some? ==> r.value.status == Active
    ensures r.Some? ==> r.value.name == JsText.Trim(name) && r.value.venue == JsText.Trim(venue)
    ensures r.Some? ==> r.value.description == (if description.Some? then description.value else DefaultDescription)
  {
    JsText.TrimEmpty(name);
    JsText.TrimEmpty(venue);
    JsText.TrimmedIsTrimFixed(name);
    JsText.TrimmedIsTrimFixed(venue);
    var e := Event(id, JsText.Trim(name), date, JsText.Trim(venue),
                   if description.Some? then description.value else DefaultDescription,
                   organizer, DefaultStatus);
    if e.name != "" && e.venue != "" then Some(e) else None
  }
}
