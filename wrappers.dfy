/** The optional value used wherever the downloader returns `None` for "no result". */
module Wrappers {

  datatype Option<+T> = None | Some(value: T)
}
