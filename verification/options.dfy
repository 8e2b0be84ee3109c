/** The nullable references of the connection (a packet that may not have
    been received yet) are modelled with this Some/None datatype. */
module Options {

  datatype Option<+T> = None | Some(value: T)
}
