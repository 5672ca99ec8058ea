/** What every carrier shares: the replies it gets and the events its callbacks post. */
module Carrier {

  datatype AuthReply = AuthErr | AuthOk | AuthOther

  datatype CasterReply = CasterErr | CasterOk | CasterOther

  /** An event of the unified channel. `connected` is the `BEV_EVENT_CONNECTED` flag. */
  datatype CarrierEvent =
    | BevRead
    | BevWrite
    | BevEvent(connected: bool)
    | Timeout
    | AuthEvent(auth: AuthReply)
    | RegisterEvent(register: CasterReply)
    | SubscribeEvent(subscribe: CasterReply)
}
