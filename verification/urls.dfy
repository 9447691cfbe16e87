/**
 URL parsing, left uninterpreted.

 `new URL(input, base)` is the WHATWG URL parser of the host. The model
 takes it as a parameter: a `Resolver` maps an input and a base to the
 parsed URL's parts, or to the message of the `TypeError` the parser
 throws.
 */
module Urls {
  import opened Wrappers

  datatype Url = Url(href: string, origin: string, pathname: string)

  type Resolver = (string, string) -> Result<Url, string>
}
