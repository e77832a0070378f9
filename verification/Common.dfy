/** Return codes, packet sizes and the codes of commands and responses. */
module Common {
  import opened Words

  datatype Option<T> = None | Some(value: T)

  const SUCCESS: int := 0
  const ERROR: int := -1

  const RESPONSE_PACKET_HEADER_SIZE: nat := 8
  const RESPONSE_PACKET_BUF_SIZE: nat := 4096
  const RESPONSE_PACKET_SIZE: nat := RESPONSE_PACKET_HEADER_SIZE + RESPONSE_PACKET_BUF_SIZE
  const COMMAND_PACKET_SIZE: nat := 16

  // Where the DMA buffers of the two handlers lie in memory.
  const DDR3_DMA_ADC_BUFFER: nat := 0xC100_0000
  const DDR3_DMA_DDC_BUFFER: nat := 0xC200_0000

  // Commands.
  const FMC150_CAPTURE: u32 := 2
  const FMC150_GET_SAMPLES: u32 := 3
  const FMC150_READ: u32 := 4
  const FMC150_WRITE: u32 := 5
  const DDC_CAPTURE: u32 := 6
  const DDC_GET_SAMPLES: u32 := 7
  const LED_READ: u32 := 12
  const LED_WRITE: u32 := 13
  const SOFT_REG_READ: u32 := 14
  const SOFT_REG_WRITE: u32 := 15

  // Responses.
  const MESSAGE: u32 := 1
  const FMC150_REG_VALUE: u32 := 2
  const FMC150_NEW_DATA: u32 := 3
  const FMC150_REMAINING_DATA: u32 := 4
  const DDC_NEW_DATA: u32 := 5
  const DDC_REMAINING_DATA: u32 := 6
  const SOFT_REG_NEW_DATA: u32 := 9
  const SOFT_REG_REMAINING_DATA: u32 := 10
}
