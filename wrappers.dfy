/** Optional values, the errors the engine can raise, and results that carry them. */
module Wrappers {

  datatype Option<+T> = None | Some(value: T)

  /** The exceptions the Python code lets escape, one constructor per cause. */
  datatype Error =
    | EmptyCsv(path: string)             // pandas.errors.EmptyDataError
    | MalformedRow(path: string)         // pandas.errors.ParserError: a row has more cells than the header
    | MissingFile(path: string)          // FileNotFoundError
    | MissingColumn(column: string)      // KeyError on row[...] / df[...]
    | UnreadableImage(path: string)      // os.path.getsize or cv2.imread failed, or the image is not 3-dimensional
    | BadDate(fileName: string)          // ValueError from int() on the date token
    | UnknownGroup(group: string)        // KeyError on dataset.classes[group]
    | NotClassifications(group: string)  // TypeError / AttributeError on a None label field
    | MissingTagRow(fileName: string)    // IndexError in _import_tags: no tag row for a sample

  datatype Result<+T> = Ok(value: T) | Err(error: Error)
}
