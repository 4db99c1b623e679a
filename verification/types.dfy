/** Row shapes of the stored polls, options and votes as the poll list
    fetches them: a poll carries its options and each option carries its
    votes. Timestamps are integers; identifiers are strings. Of a `profiles`
    row only the admin flag is ever read, so it appears as the answer of the
    profile lookup in module `App` rather than as a row shape here. */
module Types {

  /** A value that may be absent (`null` / `undefined` in the source). */
  datatype Option<+T> = None | Some(value: T)

  type Id = string

  type Timestamp = int

  /** A row of `votes`. */
  datatype Vote = Vote(id: Id, createdAt: Timestamp, pollId: Id, optionId: Id, userId: Id)

  /** A row of `options` with its nested votes. */
  datatype PollOption = PollOption(id: Id, pollId: Id, text: string, createdAt: Timestamp, votes: seq<Vote>)

  /** A row of `polls` with its nested options. */
  datatype Poll = Poll(
    id: Id,
    createdAt: Timestamp,
    title: string,
    description: string,
    createdBy: Id,
    endsAt: Timestamp,
    isActive: bool,
    options: seq<PollOption>)

  /** The identity provider's user, as far as this application reads it. */
  datatype User = User(id: Id, email: Option<string>)
}
