// The part of an MQTT packet the hooks look at.
// A Go string is a sequence of bytes; a string here holds one char for each of them.
module Mqtt {
  import opened Words

  // Control packet type 3 (section 2.1.2 of MQTT Version 5.0).
  const PUBLISH: byte := 3

  datatype Packet = Packet(
    packetType: byte, qos: byte, retain: bool, topicName: string, payload: seq<byte>, filters: seq<string>)
}
