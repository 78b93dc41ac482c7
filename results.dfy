/** Success/failure wrappers shared by the modules of the sitemap cloner. */
module Results {

  datatype Option<+T> = None | Some(value: T)

  /** Why one sitemap could not be read: the HTTP fetch failed, the body
      was not XML, or an entry had no `<loc>` child (reading `loc[0]` of
      a missing element throws). */
  datatype Error = FetchError | ParseError | LocMissing

  datatype Result<+T> = Success(value: T) | Failure(error: Error)
}
