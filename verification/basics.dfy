/** The optional-value wrapper used wherever the C++ code holds a nullable
    pointer, an empty DebugLoc or a std::optional. */
module Optional {

  datatype Option<+T> = None | Some(value: T)
}

/** Fixed-width integer types of the C++ code, as ranges of unbounded integers. */
module Widths {

  const INT32_MIN: int := -0x8000_0000
  const INT32_MAX: int := 0x7fff_ffff

  /** C++ `int` (the plugin-kind counter). */
  type int32 = x: int | -0x8000_0000 <= x <= 0x7fff_ffff

  /** C++ `unsigned` (line and column numbers, metadata versions). */
  type uint32 = x: int | 0 <= x < 0x1_0000_0000

  /** C++ `int64_t` / `long` / `long long`. */
  type int64 = x: int | -0x8000_0000_0000_0000 <= x < 0x8000_0000_0000_0000

  /** C++ `uint64_t` / `unsigned long` / `unsigned long long`. */
  type uint64 = x: int | 0 <= x < 0x1_0000_0000_0000_0000
}
