/** The conventional Some/None datatype, used for the tokenizer's active quote
    character and for the dispatcher's "no command" outcome. */
module Optional {

  datatype Option<+T> = None | Some(value: T)
}
