/** The protocol data unit exchanged between the robot and its client. */
module PduTypes {
  import opened Common

  const MSG_SIZE := 32

  type Text = m: seq<Byte> | |m| == MSG_SIZE witness seq(MSG_SIZE, _ => 0)

  datatype Pdu = Pdu(cmd: Byte, x: Byte, y: Byte, msgLen: Byte, msg: Text)
}
