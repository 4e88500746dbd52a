/**
 * One run of the export processing: request every page of the dataset's lines,
 * stream the cleaned records into the CSV file, then publish the file as an
 * attachment of the dataset, replacing the attachment of the same name.
 * The server is given as its answers: the pages in request order, the upload
 * response and the dataset's attachment list.
 */
module Export {
  import opened Values
  import LinesUrl
  import Pagination
  import Attachments

  /** The processing's configuration: the dataset, the fields to export, the optional filter, the label (the attachment's title) and the file name. */
  datatype Config = Config(
    href: string,
    fields: seq<string>,
    filter: Option<LinesUrl.Filter>,
    title: string,
    filename: string)

  /**
   * How a run ends, with the URLs requested, the chunks queued on the record
   * stream and whether the stream was ended. `Failed`: a page request was
   * rejected, the run stops there and nothing is uploaded. `Published`: every
   * page was read and the dataset was patched with `attachments`.
   */
  datatype Outcome =
    | Failed(requested: seq<string>, chunks: seq<Pagination.Chunk>, streamEnded: bool)
    | Published(requested: seq<string>, chunks: seq<Pagination.Chunk>, streamEnded: bool,
                fileName: string, attachments: seq<Attachments.Attachment>)

  /**
   * The processing's run, with the end-of-stream push corrected to `push(null)`
   * (`Pagination.FetchPagesEnded`). `responses` are the line API's pages,
   * `uploaded` the upload's response body and `current` the dataset's
   * attachments.
   */
  method Run(cfg: Config, tmpDir: string, responses: seq<Pagination.Page>, uploaded: Object, current: seq<Attachments.Attachment>)
    returns (r: Outcome)
    ensures r.requested == Pagination.Requests(LinesUrl.FirstUrl(cfg.href, cfg.fields, cfg.filter), responses)
    ensures r.Published? <==> Pagination.Terminates(responses)
    ensures r.chunks == Pagination.Chunks(Pagination.Records(responses[..Pagination.PagesRead(responses)]))
    ensures r.streamEnded <==> r.Published?
    ensures r.Published? ==> r.fileName == Attachments.UploadName(tmpDir, cfg.filename)
    ensures r.Published? ==>
              r.attachments == Attachments.Replaced(current, r.fileName, Attachments.NewEntry(uploaded, cfg.title))
  {
    var stream := new Pagination.RecordStream();
    var first := LinesUrl.FirstUrl(cfg.href, cfg.fields, cfg.filter);
    var requested, ok := Pagination.FetchPagesEnded(first, responses, stream);
    if !ok {
      return Failed(requested, stream.chunks, stream.ended);
    }
    var fileName := Attachments.UploadName(tmpDir, cfg.filename);
    var body := Attachments.UpdateAttachments(current, uploaded, cfg.title, fileName);
    return Published(requested, stream.chunks, stream.ended, fileName, body);
  }

  /**
   * A run that publishes leaves exactly one attachment named after the
   * upload, when the dataset had at most one and the upload response carries
   * that name, and keeps every other attachment in order.
   */
  lemma PublishedAttachments(current: seq<Attachments.Attachment>, uploaded: Object, title: string, fileName: string)
    requires Attachments.Count(current, fileName) <= 1 && Attachments.Named(uploaded, fileName)
    ensures Attachments.Count(Attachments.Replaced(current, fileName, Attachments.NewEntry(uploaded, title)), fileName) == 1
    ensures Attachments.Others(Attachments.Replaced(current, fileName, Attachments.NewEntry(uploaded, title)), fileName)
            == Attachments.Others(current, fileName)
  {
    var entry := Attachments.NewEntry(uploaded, title);
    Attachments.NewEntryName(uploaded, title, fileName);
    Attachments.ReplacedUnique(current, fileName, entry);
    Attachments.OthersAppendNamed(Attachments.WithoutFirst(current, fileName), entry, fileName);
    Attachments.OthersKeepOrder(current, fileName);
  }
}
