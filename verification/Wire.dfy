/** The network of the transfer model carries packets; on the wire they are bytes. For every file
    the server accepts, encoding and decoding them changes nothing. */
module Wire {
  import opened Common
  import opened Results
  import Codec
  import Transfer
  import Upload

  lemma FlightSurvivesEncoding(s: Transfer.System, content: Bytes, windowSize: nat, p: Packet, crc32: Codec.Checksum)
    requires Upload.Reachable(s, content, windowSize) && |content| <= MAX_FILE_SIZE
    requires p in s.up || p in s.down
    ensures Codec.ToBytes(p, crc32).Ok?
    ensures Codec.FromBytes(Codec.ToBytes(p, crc32).value, crc32) == Ok(p)
  {
    Upload.NumbersFit(s, content, windowSize, p);
    Codec.RoundTripExact(p, crc32);
  }
}
