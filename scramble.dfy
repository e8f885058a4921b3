/** The puzzle events the app knows, as listed in `lib/scramble.ts`. */
module Scramble {
  /** The event identifiers, in the order the app lists them. */
  const Events: seq<string> := [
    "333", "333bf", "333fm", "222", "444", "777",
    "sq1", "minx", "clock", "fto", "master_tetraminx"
  ]

  /** The default event, and the one the server renders. */
  const DefaultEvent: string := "333"

  /** The `Event` type: a string that is one of the listed events. */
  type Event = s: string | s in Events witness DefaultEvent
}
