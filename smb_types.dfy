/** The records exchanged by the share browsers: entries, pages and requests. */
module SmbTypes {
  import opened Wrappers

  /** One directory entry of a listing. */
  datatype BrowseEntry = BrowseEntry(name: string, isDirectory: bool)

  /** One page of a listing and the token that asks for the next page, if any. */
  datatype Page = Page(items: seq<BrowseEntry>, continuationToken: Option<string>)

  /** The page a cache miss hands back. */
  const EmptyPage: Page := Page([], None)

  /** A listing request; the optional fields are the nullable ones. */
  datatype BrowseRequest = BrowseRequest(
    host: string,
    share: string,
    path: string,
    pageSize: int,
    continuationToken: Option<string>,
    username: Option<string>,
    domain: Option<string>,
    secretId: Option<string>,
    forceRefresh: bool)
}
