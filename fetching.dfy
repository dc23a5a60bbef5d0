/** What fetching a page, or running a script inside it, hands back to the scraper. */
module Fetching {

  datatype Fetch<+T> =
    | Loaded(content: T)  // status 200 with data: the parsed page or the script's result
    | Failed              // any other status, or no data
    | Raised              // an exception reached the caller's catch block
}
