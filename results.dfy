/** Outcomes of calls that can fail: the exceptions the Python code raises or catches. */
module Results {

  /** The exceptions the core raises or receives from its collaborators. */
  datatype Error =
    | NotImplemented            // NotImplementedError("Unknown mode.") from StyleTransformer.transform
    | ModelNotLoaded            // AttributeError: the HF model is loaded only when mode is "hf"
    | ValueError(message: string)

  datatype Result<+T> = Ok(value: T) | Err(error: Error)

  datatype Option<+T> = None | Some(value: T)
}
