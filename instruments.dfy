/** Instrument rows and the end-of-range clamp shared by every entry point. */
module Instruments {

  /** A row of the instrument list, reduced to the columns the fetchers read. */
  datatype Instrument = Instrument(name: string, creationMs: int, expirationMs: int)

  /** End of an instrument's fetch window.  An expired instrument keeps its
      expiration timestamp; an active one is cut at the run's frozen "now",
      which the caller captures once and passes for every instrument. */
  function WindowEnd(expirationMs: int, expired: bool, frozenMs: int): (endMs: int)
    ensures expired ==> endMs == expirationMs
    ensures !expired ==> endMs <= expirationMs && endMs <= frozenMs
    ensures !expired ==> endMs == expirationMs || endMs == frozenMs
  {
    if expired || expirationMs <= frozenMs then expirationMs else frozenMs
  }
}
