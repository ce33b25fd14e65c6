/** The secondary serial port towards the motor drivers, as the sequencing
    engine sees it: frames it sends are appended to a log, and bytes
    received from the drivers wait in a queue (src/usart2_driver.cpp, with
    its status-register polling abstracted away). The bus is shared by all
    drivers; a driver takes a frame while its key line is raised, so the
    port records the key lines along with every frame. */
module Usart2 {
  import opened Masks
  import Keys

  class Usart2Port {
    /** The key lines that select which drivers listen. */
    const keys: Keys.KeyLines
    /** Every frame handed to `Usart2Driver::send`, oldest first. */
    var sent: seq<seq<bv8>>
    /** For every frame of `sent`, the key lines raised while it went out. */
    var selected: seq<Mask>
    /** Bytes received and not yet read. */
    var rx: seq<bv8>

    constructor (keys: Keys.KeyLines, rx: seq<bv8>)
      ensures this.keys == keys && sent == [] && selected == [] && this.rx == rx
    {
      this.keys := keys;
      sent := [];
      selected := [];
      this.rx := rx;
    }

    /** `Usart2Driver::send`, together with `waitTransmitComplete`: the
        frame goes out to the drivers whose key line is raised now. */
    method Send(frame: seq<bv8>)
      modifies this
      ensures sent == old(sent) + [frame] && selected == old(selected) + [keys.odr]
      ensures rx == old(rx)
    {
      sent := sent + [frame];
      selected := selected + [keys.odr];
    }

    /** `Usart2Driver::hasData`. */
    function HasData(): bool
      reads this
    {
      rx != []
    }

    /** `Usart2Driver::readByte`: the oldest received byte. */
    method ReadByte() returns (b: bv8)
      requires rx != []
      modifies this
      ensures b == old(rx)[0] && rx == old(rx)[1..]
      ensures sent == old(sent) && selected == old(selected)
    {
      b := rx[0];
      rx := rx[1..];
    }
  }
}
