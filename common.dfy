/** Small result types shared by the loader and the settings inputs. */
module Common {

  /** Rust's `Option<T>`. */
  datatype Option<+T> = None | Some(value: T)

  /** Rust's `Result<T, E>`. */
  datatype Result<+T, +E> = Ok(value: T) | Err(error: E)

  /** The crate's `GuiError`; the settings inputs only ever raise this variant. */
  datatype GuiError = GuiInputIsInsane

  /** Rust's unit type `()`. */
  datatype Unit = Unit
}
