/** Keyboards as data: an inline button carries a label and either callback
    data or a URL; a reply keyboard is a list of rows of button labels. */
module Keyboard {
  datatype Action = Callback(data: string) | Link(url: string)
  datatype InlineButton = InlineButton(text: string, action: Action)
  type ReplyKeyboard = seq<seq<string>>
}
