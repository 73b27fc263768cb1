/**
 The library calls the actions make but whose code is not part of this
 model: Spring's MD5 hex digest, `URLEncoder.encode` (which may throw),
 the shared `SimpleDateFormat("yyyy-MM-dd'T'HH:mm:ssZ").parse` (which may
 throw `ParseException`) and the inherited `doConverDate`. Each is an
 arbitrary function; every property proved below holds for all of them.
 */
module Foreign {
  import opened Common
  import opened Wire
  import opened Metadata
  import Authorization

  datatype Library = Library(
    md5: Authorization.Md5,
    urlEncode: string -> Option<string>,
    parseDate: string -> Option<Date>,
    convertDate: Option<MarvelDate> -> Option<Date>)
}
