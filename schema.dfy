/** Row shapes of the bot's two SQLite tables.
    `users(id TEXT PRIMARY KEY, thresh, price, alerted)` becomes a map from id to `User`
    (the map's keys are the primary key), and `history(timestamp PRIMARY KEY, price)`
    becomes a sequence of `Sample`s in insertion order. Prices are exact `real`s. */
module Schema {

  /** A Discord user id, stored as TEXT. */
  type UserId = string

  /** One subscription: the alert threshold, the price the user was last notified at
      (0 when the subscription was just made) and whether the alert is currently raised. */
  datatype User = User(thresh: real, price: real, alerted: bool)

  /** One price observation, `timestamp` in milliseconds since the Unix epoch (UTC). */
  datatype Sample = Sample(timestamp: nat, price: real)
}
