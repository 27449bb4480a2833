/**
 * The shape every validated text field shares (the `GuiInput` trait): the
 * text as stored and the sanity bit computed when the field was set.
 */
module GuiInput {

  datatype GuiData = GuiData(value: string, sanity: bool)
}
