/** app/core/parser/doc_parser.py: what its parsers share. */
module DocParser {

  const MAX_EXTRACTED_CHARS := 100_000
}
