/** Types shared by the whole model. */
module Common {
  /** The two crawlers: `EnhancedStealthCrawler` (enhanced_reaper.py) and
      `StealthCrawler` (Reapers/deep_reaper.py). Where their code differs only
      in a constant, the constant is a function of the crawler. */
  datatype Crawler = Enhanced | Deep

  datatype Option<T> = None | Some(value: T)

  /** A value, or the exception the source raises instead. */
  datatype Result<T, E> = Success(value: T) | Failure(error: E)

  /** No element occurs twice. */
  predicate NoDups<T(==)>(s: seq<T>) {
    forall i, j :: 0 <= i < j < |s| ==> s[i] != s[j]
  }
}
