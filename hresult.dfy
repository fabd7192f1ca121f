/** Windows status codes as the game and the asset builder use them.

    An HRESULT is a signed 32-bit value; `FAILED(hr)` is `hr < 0`. The asset
    builder also returns plain Win32 error codes (small positive numbers) through
    the same type, which `FAILED` does not treat as failures. */
module HResults {

  newtype HResult = x: int | -0x8000_0000 <= x < 0x8000_0000

  const S_OK: HResult := 0

  /** 0x887A0002, returned by adapter enumeration past the last adapter. */
  const DXGI_ERROR_NOT_FOUND: HResult := -0x7785_FFFE

  /** Win32 error codes (not HRESULTs). */
  const ERROR_FILE_NOT_FOUND: HResult := 2
  const ERROR_FILE_CORRUPT: HResult := 1392

  /** The `FAILED` macro. */
  predicate Failed(hr: HResult) {
    hr < 0
  }

  /** The `HRESULT_FROM_WIN32` macro: a positive Win32 code becomes a failing
      HRESULT in facility 7; zero and negative values are kept. */
  function FromWin32(code: HResult): (hr: HResult)
    ensures code > 0 ==> Failed(hr)
    ensures code <= 0 ==> hr == code
  {
    if code <= 0 then code
    else ((code as int) % 0x1_0000 + 0x8007_0000 - 0x1_0000_0000) as HResult
  }

  datatype Option<T> = None | Some(value: T)

  /** Result of an operation that yields a value or a failing status. */
  datatype Result<T> = Ok(value: T) | Err(status: HResult)
}
