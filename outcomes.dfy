/**
 * The exceptions the dungeon engine throws, and the values that carry them.
 * Every Java operation that may throw becomes a Dafny operation returning a
 * `Result`: a value, or the error; `Result<()>` stands for a `void` method.
 */
module Outcomes {

  /** Why an IllegalArgumentException or IllegalStateException was raised. */
  datatype Reason =
    | NegativeSize                 // rows or columns below zero
    | NegativeInterconnectivity
    | PercentOutOfRange            // treasure/arrow percentage outside 0..100
    | NonPositiveDifficulty
    | NullPlayer
    | NullNumberSource
    | InterconnectivityTooLarge   // more extra paths requested than candidates left
    | TooFewCaves                  // fewer than two caves for start and end
    | NoDistantPair                // no start/end pair more than five apart found
    | NullLocation
    | NullDirection
    | NullTreasure
    | NoSuchDirection              // the current cell has no exit that way
    | DistanceOutOfRange           // a shot distance outside 1..4
    | NoArrows
    | NoTreasureHere
    | TreasureNotHere
    | GameLost                     // the player is dead
    | GameWon                      // the player stands on the end cave
    | NonPositiveBound             // java.util.Random.nextInt with a bound <= 0

  datatype Error =
    | IllegalArgument(reason: Reason)
    | IllegalState(reason: Reason)
    | IndexOutOfBounds             // List.get or an array access out of range
    | NullPointer                  // a dereference of null
    | DrawsExhausted               // the number source has no further value
    | OutOfFuel                    // an arrow still in flight after the model's step bound

  /** A possibly absent value (Java's null). */
  datatype Option<T> = None | Some(value: T)

  /** The outcome of a Java method that returns a value or throws. */
  datatype Result<T> = Ok(value: T) | Err(error: Error)
  {
    predicate IsFailure() { Err? }

    function PropagateFailure<U>(): Result<U>
      requires Err?
    {
      Err(error)
    }

    function Extract(): T
      requires Ok?
    {
      value
    }
  }
}
