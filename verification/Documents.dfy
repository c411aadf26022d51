/** What the realtime modules share: the kinds of documents and of raw ops, and the values in documents. */
module Documents {

  datatype DocType = TableDoc | FieldDoc | ViewDoc | RecordDoc

  datatype RawOpType = Create | Edit | Del

  /** A cell or property value; the record op builder writes an empty list as null. */
  datatype Value = Null | EmptyList | Other(n: int)
}
