/** The fixed strings the client sends to the registry and writes to its output. */
module Constants {
  import opened JavaLang

  /** Appended to every query string. */
  const URL_PREFIX: string := "&utf8=%E2%9C%93"

  /** Path of the registry's search for active companies; the query string follows it. */
  const URL_BLOCK_SEARCH_ACTIVE_COMPANIES: string := "/v0.2/companies/search?current_status=Active&q="

  /** The first line of the output file: the column names, upper-cased. */
  const OUTPUT_HEADERS: string := ToUpperCase(
    "Input Company Name; company number; jurisdiction; branch status; company_type; name; matching score; created_at; registry_url; opencorporates_url\n")
}
