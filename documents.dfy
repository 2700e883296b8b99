/** The document record that the corpus builder produces and the query
    pipeline retrieves: page text plus a string-to-string metadata map. */
module Documents {

  datatype Document = Document(pageContent: string, metadata: map<string, string>)

  /** The `source` label the corpus builder writes and the query side falls
      back to. */
  const BankName: string := "Bank of Maharashtra"

  /** `metadata.get(key, fallback)`, the dictionary lookup with a fallback value. */
  function Get(metadata: map<string, string>, key: string, fallback: string): (r: string)
    ensures key in metadata ==> r == metadata[key]
    ensures key !in metadata ==> r == fallback
  {
    if key in metadata then metadata[key] else fallback
  }
}
