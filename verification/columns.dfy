/** What the database does with a value written to a typed column. A
    `varchar(n)` column refuses a text longer than `n` characters; a
    `numeric(p, s)` column reads the text as a decimal, rounds it to `s`
    places and refuses it when it is not a number or does not fit `p`
    digits. That reading is a parameter of the model. */
module Columns {
  import opened Common

  /** A `numeric(p, s)` column: the text it stores for a written text (the
      rounded value as PostgreSQL prints it), `None` when it refuses it. */
  type NumericColumn = string -> Option<string>

  /** `s` fits a `varchar(n)` column. */
  predicate Fits(n: nat, s: string)
  {
    |s| <= n
  }

  /** A nullable `varchar(n)` column: `null` always fits. */
  predicate FitsOpt(n: nat, s: Option<string>)
  {
    s.None? || Fits(n, s.value)
  }
}
