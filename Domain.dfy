/** The records the services share: a parsed CSV row, and the stored processing request
    (the job) with its per-row results and its products. */
module Domain {
  import opened Wrappers

  /** One parsed CSV row: column name to cell text. A column the row lacks is absent
      from the map (the cell reads as `undefined`). */
  type Row = map<string, string>

  const SerialColumn: string := "S. No."
  const NameColumn: string := "Product Name"
  const UrlsColumn: string := "Input Image Urls"

  /** The columns both validators insist on, in the order they are checked. */
  const RequiredColumns: seq<string> := [SerialColumn, NameColumn, UrlsColumn]

  datatype Status = Pending | Processing | Completed | Failed

  /** What one CSV row contributes to a job: the product name as read (None when the row
      has no such cell), the URLs of its image column and, position by position, the
      reference of each processed image or None (`null`) where that image failed. */
  datatype RowResult = RowResult(
    productName: Option<string>,
    originalUrls: seq<string>,
    processedUrls: seq<Option<string>>)

  /** A product of a request, with the URLs of its images and those of the processed ones. */
  datatype Product = Product(inputImageUrls: seq<string>, outputImageUrls: seq<string>)

  /** The stored processing request. */
  datatype ProcessingRequest = ProcessingRequest(
    requestId: string,
    filename: string,
    status: Status,
    progress: nat,
    completedAt: Option<int>,
    error: Option<string>,
    results: seq<RowResult>,
    products: seq<Product>)

  /** The message both services throw when the request id is unknown. */
  const NotFoundMessage: string := "Request not found"
}
