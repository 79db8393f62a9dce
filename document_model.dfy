/** The records of `src/models/document.model.ts`. */
module DocumentModel {
  import opened Collections

  /** The contents of a document's `metadata.json`. */
  datatype DocumentMetadata = DocumentMetadata(
    title: string,
    description: string,
    author: string,
    date: string,
    tags: seq<string>,
    category: string)

  /** One catalog entry; `slug` names its folder under `/documents/`. */
  datatype Document = Document(
    slug: string,
    metadata: DocumentMetadata,
    htmlContent: string,
    pdfUrl: string,
    thumbnailUrl: Option<string>)
}
