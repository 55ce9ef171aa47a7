/** The optional value every handler receives for "which record is being edited or deleted":
    `None` stands for the source's `null` (add mode, or nothing pending). */
module Options {

  datatype Option<T> = None | Some(value: T)
}
