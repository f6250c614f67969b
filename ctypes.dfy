/** The fixed-width C integer types of the native structs (SDL_stdinc.h),
    as ranges of unbounded integers. */
module CTypes {

  type Uint8 = x: int | 0 <= x < 0x100

  type Int16 = x: int | -0x8000 <= x < 0x8000

  type Int32 = x: int | -0x8000_0000 <= x < 0x8000_0000

  type Uint32 = x: int | 0 <= x < 0x1_0000_0000
}
