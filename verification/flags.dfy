/** The configuration flags of a connection (icom_flags.h) and what they switch on. */
module FlagBits {

  const FLAG_DEFAULT: bv32 := 0
  const FLAG_ZERO: bv32 := 1
  const FLAG_PROT: bv32 := 2
  const FLAG_TIMEOUT: bv32 := 4
  const FLAG_NOTIFY: bv32 := 8
  const FLAG_AUTONOTIFY: bv32 := 16
  const FLAG_INVALID: bv32 := 0x8000_0000

  predicate IsZero(flags: bv32) {
    flags & FLAG_ZERO != 0
  }

  /** Which acknowledgement handlers an initialised link carries. */
  datatype Notification = Plain | Notify | AutoNotify

  function NotificationOf(flags: bv32): Notification {
    if flags & FLAG_AUTONOTIFY != 0 then AutoNotify
    else if flags & FLAG_NOTIFY != 0 then Notify
    else Plain
  }
}
