/**
 * `updateDiagnostics`: for an E++ document, run the block-balance scan and publish
 * the document's diagnostics into the extension's diagnostic collection. The scan
 * never produces a diagnostic, so what is published is always the empty list,
 * replacing whatever the document had before. Other documents are left alone.
 */
module Diagnostics {
  import opened Lines
  import opened BlockScan

  /** The parts of a VS Code text document the linter reads. */
  datatype TextDocument = TextDocument(uri: string, languageId: string, text: string)

  /** The language the linter applies to. */
  const EppLanguage: string := "epp"

  /** A named map from document URI to that document's diagnostics. */
  class DiagnosticCollection<D> {
    const name: string
    var entries: map<string, seq<D>>

    constructor(name: string)
      ensures this.name == name && entries == map[]
    {
      this.name := name;
      entries := map[];
    }

    /** `collection.set(uri, diagnostics)`: the URI's list is replaced wholesale. */
    method Set(uri: string, diagnostics: seq<D>)
      modifies this
      ensures entries == old(entries)[uri := diagnostics]
    {
      entries := entries[uri := diagnostics];
    }
  }

  /** The collection's entries after `updateDiagnostics(document)`. */
  function Published<D>(entries: map<string, seq<D>>, document: TextDocument): (r: map<string, seq<D>>)
    ensures document.languageId != EppLanguage ==> r == entries
    ensures document.languageId == EppLanguage ==> document.uri in r && r[document.uri] == []
    ensures forall u :: u != document.uri ==> (u in r <==> u in entries)
    ensures forall u :: u != document.uri && u in r ==> r[u] == entries[u]
  {
    if document.languageId != EppLanguage then entries else entries[document.uri := []]
  }

  /** Running the linter a second time on the same document changes nothing more. */
  lemma PublishedIdempotent<D>(entries: map<string, seq<D>>, document: TextDocument)
    ensures Published(Published(entries, document), document) == Published(entries, document)
  {
  }

  /** What is published does not depend on the document's text, only on its URI and language. */
  lemma PublishedIgnoresText<D>(entries: map<string, seq<D>>, a: TextDocument, b: TextDocument)
    requires a.uri == b.uri && a.languageId == b.languageId
    ensures Published(entries, a) == Published(entries, b)
  {
  }

  /** Updates for any two documents commute. */
  lemma PublishedCommutes<D>(entries: map<string, seq<D>>, a: TextDocument, b: TextDocument)
    ensures Published(Published(entries, a), b) == Published(Published(entries, b), a)
  {
  }

  /**
   * `updateDiagnostics(document)`. The scan's counter is computed and dropped, as
   * in the source; for an E++ document the collection then holds the empty list
   * for its URI, and nothing else changes.
   */
  method UpdateDiagnostics<D>(collection: DiagnosticCollection<D>, document: TextDocument)
    modifies collection
    ensures collection.entries == Published(old(collection.entries), document)
  {
    if document.languageId != EppLanguage {
      return;
    }
    var diagnostics: seq<D> := [];
    var text := document.text;
    var _ := Scan(text);
    collection.Set(document.uri, diagnostics);
  }
}
