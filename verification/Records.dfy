/** The records that travel through the gateway (config.h). */
module Records {

  /** The source's uint16_t, used for sensor and room ids. */
  type Word16 = x: int | 0 <= x < 0x1_0000

  /** Every 16-bit number is an id. */
  lemma EveryId(x: int) returns (id: Word16)
    requires 0 <= x <= 65535
    ensures id == x
  {
    id := x;
  }

  /** sensor_data_t. A reading whose id is END_MARKER closes the stream. */
  datatype Reading = Reading(id: Word16, value: real, ts: int)

  /** One line of room_sensor.map. */
  datatype Mapping = Mapping(room: Word16, sensor: Word16)

  datatype Option<+T> = None | Some(value: T)

  const END_MARKER: Word16 := 0
}
