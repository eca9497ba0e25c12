/** The document record that flows between the chunker, the parent store and
    the search index: a text body and a string-valued metadata map (heading
    trail, source file name, owning parent id). */
module Documents {

  datatype Document = Document(pageContent: string, metadata: map<string, string>)

  /** The text bodies of a list of documents, in order. */
  function Texts(ds: seq<Document>): (ts: seq<string>)
    ensures |ts| == |ds|
    ensures forall i :: 0 <= i < |ds| ==> ts[i] == ds[i].pageContent
  {
    seq(|ds|, i requires 0 <= i < |ds| => ds[i].pageContent)
  }

  lemma TextsAppend(a: seq<Document>, b: seq<Document>)
    ensures Texts(a + b) == Texts(a) + Texts(b)
  {
  }

  /** A library text splitter (recursive character splitting with a chunk size
      and an overlap). Its algorithm is not modelled: it is a parameter. */
  type SplitText = (nat, nat, string) -> seq<string>

  /** `split_documents`: each piece becomes a document that carries a copy of
      the original metadata. */
  function Pieces(texts: seq<string>, metadata: map<string, string>): (ds: seq<Document>)
    ensures |ds| == |texts|
    ensures forall i :: 0 <= i < |ds| ==> ds[i] == Document(texts[i], metadata)
  {
    seq(|texts|, i requires 0 <= i < |texts| => Document(texts[i], metadata))
  }
}
