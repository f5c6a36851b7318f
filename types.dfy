/** The value types shared by the item store and the image card: the status of
    one requested illustration and the record that describes it. */
module Types {

  datatype Option<+T> = None | Some(value: T)

  /** The five states an item can be in. Only the handlers of the store change
      it; `Cancelled` is read by the card but never assigned. */
  datatype ImageStatus = Pending | Loading | Success | Error | Cancelled

  /** One requested illustration. "No image yet" is the empty `imageUrl`;
      `error` is the only field that may be absent. */
  datatype GeneratedImage = GeneratedImage(
    prompt: string,
    imageUrl: string,
    status: ImageStatus,
    error: Option<string>)

  /** A freshly created item: the given prompt, no image, `Pending`, no error. */
  function NewImage(prompt: string): GeneratedImage
  {
    GeneratedImage(prompt, "", Pending, None)
  }
}
