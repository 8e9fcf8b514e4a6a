/** Error codes (include/error_common.h) and the library's global error state. */
module Errors {
  const ENONE := 0
  const EAGAIN := 11
  const ENOMEM := 12
  const EOVERFLOW := 75
  const EUNKNOWN := 256
  const EBUILDID := 257
  const EINVALIDULP := 266
  const ENOOLDFUNC := 267
  const ENONEWFUNC := 268
  const ENOMETA := 269
  const ESTATE := 270
  const ENOTAPPLIED := 272
  const EDEPEND := 273
  const ENOADDRESS := 274
  const EAPPLIED := 275
  const ENOTARGETLIB := 276
  const ENOPATCHABLE := 278
  const EUSRBLOCKED := 280
  const ENOPATCH := 284
  const EINSNQ := 285
  const EOLDULP := 286
  const EDLOPEN := 287

  class ErrorState {
    var state: int

    constructor ()
      ensures state == ENONE
    {
      state := ENONE;
    }

    predicate IsInErrorState()
      reads this
    {
      state != ENONE
    }

    method Set(s: int)
      modifies this
      ensures state == s
    {
      state := s;
    }
  }
}
