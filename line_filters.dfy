/** The per-line filters the extractors apply before scanning. */
module LineFilters {
  import opened Strings
  import opened ImportTypes
  import opened TextUtils

  /** `!looksLikeHeaderOrNoise(l.text)` */
  predicate NotHeader(l: OcrLine) { !LooksLikeHeaderOrNoise(l.text) }

  /** `l.text.trim() !== ''` */
  predicate HasText(l: OcrLine) { Trim(l.text) != [] }
}
