/** The constants that several parts of the chain share. */
module Config {

  /** One hundred percent, in hundredths of a percent. */
  const FULL: nat := 10000

  /** The part of the schedule that makes a block irreversible. */
  const IRREVERSIBLE_THRESHOLD: nat := 7500

  /** The time in which all energy comes back, in seconds. */
  const REGENERATION: nat := 432000

  /** The account that produces blocks in emergency mode. */
  const COMMITTEE := "committee"

  /** The account with the lowest id. */
  const NULL_ACCOUNT := "null"
}
