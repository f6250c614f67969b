/** Error translation (sdl2hl/error.py).

    The native library reports failure in band, with a negative integer or a
    null pointer, and keeps a message in a last-error string. The two checking
    functions turn those sentinels into an `SDLError` carrying the message and
    clear the string. The last-error string is the field of `ErrorState`; a
    raised exception is the `Err` case of `Result`. */
module Error {

  /** The exception `SDLError(error_message)`. */
  datatype SDLError = SDLError(message: string)

  /** A value returned normally, or an `SDLError` raised. */
  datatype Result<T> = Ok(value: T) | Err(error: SDLError)

  /** A native pointer value; address 0 is `ffi.NULL`. */
  type Address = nat

  const NULL: Address := 0

  /** The native library's last-error state (`SDL_GetError`/`SDL_ClearError`). */
  class ErrorState {
    var lastError: string

    constructor (message: string)
      ensures lastError == message
    {
      lastError := message;
    }

    /** check_int_err: a non-negative value (0 included) is returned unchanged
        and the error state is left alone; a negative one raises the current
        message, read before the state is cleared. */
    method CheckIntErr(value: int) returns (r: Result<int>)
      modifies this
      ensures value >= 0 ==> r == Ok(value) && lastError == old(lastError)
      ensures value < 0 ==> r == Err(SDLError(old(lastError))) && lastError == ""
    {
      if value >= 0 {
        r := Ok(value);
      } else {
        var message := lastError;
        lastError := "";
        r := Err(SDLError(message));
      }
    }

    /** check_ptr_err: a non-null pointer is returned unchanged and the error
        state is left alone; null raises the current message, read before the
        state is cleared. */
    method CheckPtrErr(ptr: Address) returns (r: Result<Address>)
      modifies this
      ensures ptr != NULL ==> r == Ok(ptr) && lastError == old(lastError)
      ensures ptr == NULL ==> r == Err(SDLError(old(lastError))) && lastError == ""
    {
      if ptr != NULL {
        r := Ok(ptr);
      } else {
        var message := lastError;
        lastError := "";
        r := Err(SDLError(message));
      }
    }
  }
}
