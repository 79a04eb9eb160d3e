/** Option and Result shapes shared by the whole model. A Rust `panic!`,
    `assert!` failure or `unwrap` on `None` is the `Panic` arm of `Result`. */
module Wrappers {

  datatype Option<+T> = None | Some(value: T)

  datatype Result<+T> = Ok(value: T) | Panic(reason: string)
}
