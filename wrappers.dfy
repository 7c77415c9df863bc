/**
 * Failure-carrying values. The Ruby code signals failure by raising; the model
 * returns `Err` with the kind of exception Ruby would raise at that point.
 */
module Wrappers {

  datatype Option<+T> = None | Some(value: T)

  /** The exceptions the modelled Ruby code can raise. */
  datatype Error =
    | NoJournal(key: string)     // StandardError "No journal with key … found"
    | NoMethod(name: string)     // NoMethodError: a method called on a value that lacks it
    | NoConversion               // TypeError: no implicit conversion (e.g. Integer#[] with a String)
    | WrongArity                 // ArgumentError: wrong number of arguments
    | NotMatched                 // IndexError "string not matched" from String#[]=
    | NilKey                     // a question key made of dots only (see README, Left out)
    | InputExhausted             // the finite input sequence ran out while a prompt waited

  datatype Result<+T> = Ok(value: T) | Err(error: Error)
}
