/** The identifiers both the reaction bar and the profile page refer to:
    rows of the hosted tables carry them as text. */
module Identifiers {

  /** `confessions.id` (a UUID, as text). */
  type ConfessionId = string

  /** The signed-in user's `id` (a UUID, as text). */
  type UserId = string
}
