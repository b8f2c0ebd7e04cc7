/** The logarithm tables of jni/wv/words.c, lines 89-125. */
module LogTables {
  import opened Machine

  /** `log2_table [i]`. */
  function Log2Table(i: nat): byte
    requires i < 256
  {
    match i / 16
    case 0 => (
      match i % 16
      case 0 => 0x00 case 1 => 0x01 case 2 => 0x03 case 3 => 0x04 case 4 => 0x06 case 5 => 0x07 case 6 => 0x09 case 7 => 0x0a
      case 8 => 0x0b case 9 => 0x0d case 10 => 0x0e case 11 => 0x10 case 12 => 0x11 case 13 => 0x12 case 14 => 0x14 case _ => 0x15
    )
    case 1 => (
      match i % 16
      case 0 => 0x16 case 1 => 0x18 case 2 => 0x19 case 3 => 0x1a case 4 => 0x1c case 5 => 0x1d case 6 => 0x1e case 7 => 0x20
      case 8 => 0x21 case 9 => 0x22 case 10 => 0x24 case 11 => 0x25 case 12 => 0x26 case 13 => 0x28 case 14 => 0x29 case _ => 0x2a
    )
    case 2 => (
      match i % 16
      case 0 => 0x2c case 1 => 0x2d case 2 => 0x2e case 3 => 0x2f case 4 => 0x31 case 5 => 0x32 case 6 => 0x33 case 7 => 0x34
      case 8 => 0x36 case 9 => 0x37 case 10 => 0x38 case 11 => 0x39 case 12 => 0x3b case 13 => 0x3c case 14 => 0x3d case _ => 0x3e
    )
    case 3 => (
      match i % 16
      case 0 => 0x3f case 1 => 0x41 case 2 => 0x42 case 3 => 0x43 case 4 => 0x44 case 5 => 0x45 case 6 => 0x47 case 7 => 0x48
      case 8 => 0x49 case 9 => 0x4a case 10 => 0x4b case 11 => 0x4d case 12 => 0x4e case 13 => 0x4f case 14 => 0x50 case _ => 0x51
    )
    case 4 => (
      match i % 16
      case 0 => 0x52 case 1 => 0x54 case 2 => 0x55 case 3 => 0x56 case 4 => 0x57 case 5 => 0x58 case 6 => 0x59 case 7 => 0x5a
      case 8 => 0x5c case 9 => 0x5d case 10 => 0x5e case 11 => 0x5f case 12 => 0x60 case 13 => 0x61 case 14 => 0x62 case _ => 0x63
    )
    case 5 => (
      match i % 16
      case 0 => 0x64 case 1 => 0x66 case 2 => 0x67 case 3 => 0x68 case 4 => 0x69 case 5 => 0x6a case 6 => 0x6b case 7 => 0x6c
      case 8 => 0x6d case 9 => 0x6e case 10 => 0x6f case 11 => 0x70 case 12 => 0x71 case 13 => 0x72 case 14 => 0x74 case _ => 0x75
    )
    case 6 => (
      match i % 16
      case 0 => 0x76 case 1 => 0x77 case 2 => 0x78 case 3 => 0x79 case 4 => 0x7a case 5 => 0x7b case 6 => 0x7c case 7 => 0x7d
      case 8 => 0x7e case 9 => 0x7f case 10 => 0x80 case 11 => 0x81 case 12 => 0x82 case 13 => 0x83 case 14 => 0x84 case _ => 0x85
    )
    case 7 => (
      match i % 16
      case 0 => 0x86 case 1 => 0x87 case 2 => 0x88 case 3 => 0x89 case 4 => 0x8a case 5 => 0x8b case 6 => 0x8c case 7 => 0x8d
      case 8 => 0x8e case 9 => 0x8f case 10 => 0x90 case 11 => 0x91 case 12 => 0x92 case 13 => 0x93 case 14 => 0x94 case _ => 0x95
    )
    case 8 => (
      match i % 16
      case 0 => 0x96 case 1 => 0x97 case 2 => 0x98 case 3 => 0x99 case 4 => 0x9a case 5 => 0x9b case 6 => 0x9b case 7 => 0x9c
      case 8 => 0x9d case 9 => 0x9e case 10 => 0x9f case 11 => 0xa0 case 12 => 0xa1 case 13 => 0xa2 case 14 => 0xa3 case _ => 0xa4
    )
    case 9 => (
      match i % 16
      case 0 => 0xa5 case 1 => 0xa6 case 2 => 0xa7 case 3 => 0xa8 case 4 => 0xa9 case 5 => 0xa9 case 6 => 0xaa case 7 => 0xab
      case 8 => 0xac case 9 => 0xad case 10 => 0xae case 11 => 0xaf case 12 => 0xb0 case 13 => 0xb1 case 14 => 0xb2 case _ => 0xb2
    )
    case 10 => (
      match i % 16
      case 0 => 0xb3 case 1 => 0xb4 case 2 => 0xb5 case 3 => 0xb6 case 4 => 0xb7 case 5 => 0xb8 case 6 => 0xb9 case 7 => 0xb9
      case 8 => 0xba case 9 => 0xbb case 10 => 0xbc case 11 => 0xbd case 12 => 0xbe case 13 => 0xbf case 14 => 0xc0 case _ => 0xc0
    )
    case 11 => (
      match i % 16
      case 0 => 0xc1 case 1 => 0xc2 case 2 => 0xc3 case 3 => 0xc4 case 4 => 0xc5 case 5 => 0xc6 case 6 => 0xc6 case 7 => 0xc7
      case 8 => 0xc8 case 9 => 0xc9 case 10 => 0xca case 11 => 0xcb case 12 => 0xcb case 13 => 0xcc case 14 => 0xcd case _ => 0xce
    )
    case 12 => (
      match i % 16
      case 0 => 0xcf case 1 => 0xd0 case 2 => 0xd0 case 3 => 0xd1 case 4 => 0xd2 case 5 => 0xd3 case 6 => 0xd4 case 7 => 0xd4
      case 8 => 0xd5 case 9 => 0xd6 case 10 => 0xd7 case 11 => 0xd8 case 12 => 0xd8 case 13 => 0xd9 case 14 => 0xda case _ => 0xdb
    )
    case 13 => (
      match i % 16
      case 0 => 0xdc case 1 => 0xdc case 2 => 0xdd case 3 => 0xde case 4 => 0xdf case 5 => 0xe0 case 6 => 0xe0 case 7 => 0xe1
      case 8 => 0xe2 case 9 => 0xe3 case 10 => 0xe4 case 11 => 0xe4 case 12 => 0xe5 case 13 => 0xe6 case 14 => 0xe7 case _ => 0xe7
    )
    case 14 => (
      match i % 16
      case 0 => 0xe8 case 1 => 0xe9 case 2 => 0xea case 3 => 0xea case 4 => 0xeb case 5 => 0xec case 6 => 0xed case 7 => 0xee
      case 8 => 0xee case 9 => 0xef case 10 => 0xf0 case 11 => 0xf1 case 12 => 0xf1 case 13 => 0xf2 case 14 => 0xf3 case _ => 0xf4
    )
    case _ => (
      match i % 16
      case 0 => 0xf4 case 1 => 0xf5 case 2 => 0xf6 case 3 => 0xf7 case 4 => 0xf7 case 5 => 0xf8 case 6 => 0xf9 case 7 => 0xf9
      case 8 => 0xfa case 9 => 0xfb case 10 => 0xfc case 11 => 0xfc case 12 => 0xfd case 13 => 0xfe case 14 => 0xff case _ => 0xff
    )
  }

  /** `exp2_table [i]`. */
  function Exp2Table(i: nat): byte
    requires i < 256
  {
    match i / 16
    case 0 => (
      match i % 16
      case 0 => 0x00 case 1 => 0x01 case 2 => 0x01 case 3 => 0x02 case 4 => 0x03 case 5 => 0x03 case 6 => 0x04 case 7 => 0x05
      case 8 => 0x06 case 9 => 0x06 case 10 => 0x07 case 11 => 0x08 case 12 => 0x08 case 13 => 0x09 case 14 => 0x0a case _ => 0x0b
    )
    case 1 => (
      match i % 16
      case 0 => 0x0b case 1 => 0x0c case 2 => 0x0d case 3 => 0x0e case 4 => 0x0e case 5 => 0x0f case 6 => 0x10 case 7 => 0x10
      case 8 => 0x11 case 9 => 0x12 case 10 => 0x13 case 11 => 0x13 case 12 => 0x14 case 13 => 0x15 case 14 => 0x16 case _ => 0x16
    )
    case 2 => (
      match i % 16
      case 0 => 0x17 case 1 => 0x18 case 2 => 0x19 case 3 => 0x19 case 4 => 0x1a case 5 => 0x1b case 6 => 0x1c case 7 => 0x1d
      case 8 => 0x1d case 9 => 0x1e case 10 => 0x1f case 11 => 0x20 case 12 => 0x20 case 13 => 0x21 case 14 => 0x22 case _ => 0x23
    )
    case 3 => (
      match i % 16
      case 0 => 0x24 case 1 => 0x24 case 2 => 0x25 case 3 => 0x26 case 4 => 0x27 case 5 => 0x28 case 6 => 0x28 case 7 => 0x29
      case 8 => 0x2a case 9 => 0x2b case 10 => 0x2c case 11 => 0x2c case 12 => 0x2d case 13 => 0x2e case 14 => 0x2f case _ => 0x30
    )
    case 4 => (
      match i % 16
      case 0 => 0x30 case 1 => 0x31 case 2 => 0x32 case 3 => 0x33 case 4 => 0x34 case 5 => 0x35 case 6 => 0x35 case 7 => 0x36
      case 8 => 0x37 case 9 => 0x38 case 10 => 0x39 case 11 => 0x3a case 12 => 0x3a case 13 => 0x3b case 14 => 0x3c case _ => 0x3d
    )
    case 5 => (
      match i % 16
      case 0 => 0x3e case 1 => 0x3f case 2 => 0x40 case 3 => 0x41 case 4 => 0x41 case 5 => 0x42 case 6 => 0x43 case 7 => 0x44
      case 8 => 0x45 case 9 => 0x46 case 10 => 0x47 case 11 => 0x48 case 12 => 0x48 case 13 => 0x49 case 14 => 0x4a case _ => 0x4b
    )
    case 6 => (
      match i % 16
      case 0 => 0x4c case 1 => 0x4d case 2 => 0x4e case 3 => 0x4f case 4 => 0x50 case 5 => 0x51 case 6 => 0x51 case 7 => 0x52
      case 8 => 0x53 case 9 => 0x54 case 10 => 0x55 case 11 => 0x56 case 12 => 0x57 case 13 => 0x58 case 14 => 0x59 case _ => 0x5a
    )
    case 7 => (
      match i % 16
      case 0 => 0x5b case 1 => 0x5c case 2 => 0x5d case 3 => 0x5e case 4 => 0x5e case 5 => 0x5f case 6 => 0x60 case 7 => 0x61
      case 8 => 0x62 case 9 => 0x63 case 10 => 0x64 case 11 => 0x65 case 12 => 0x66 case 13 => 0x67 case 14 => 0x68 case _ => 0x69
    )
    case 8 => (
      match i % 16
      case 0 => 0x6a case 1 => 0x6b case 2 => 0x6c case 3 => 0x6d case 4 => 0x6e case 5 => 0x6f case 6 => 0x70 case 7 => 0x71
      case 8 => 0x72 case 9 => 0x73 case 10 => 0x74 case 11 => 0x75 case 12 => 0x76 case 13 => 0x77 case 14 => 0x78 case _ => 0x79
    )
    case 9 => (
      match i % 16
      case 0 => 0x7a case 1 => 0x7b case 2 => 0x7c case 3 => 0x7d case 4 => 0x7e case 5 => 0x7f case 6 => 0x80 case 7 => 0x81
      case 8 => 0x82 case 9 => 0x83 case 10 => 0x84 case 11 => 0x85 case 12 => 0x87 case 13 => 0x88 case 14 => 0x89 case _ => 0x8a
    )
    case 10 => (
      match i % 16
      case 0 => 0x8b case 1 => 0x8c case 2 => 0x8d case 3 => 0x8e case 4 => 0x8f case 5 => 0x90 case 6 => 0x91 case 7 => 0x92
      case 8 => 0x93 case 9 => 0x95 case 10 => 0x96 case 11 => 0x97 case 12 => 0x98 case 13 => 0x99 case 14 => 0x9a case _ => 0x9b
    )
    case 11 => (
      match i % 16
      case 0 => 0x9c case 1 => 0x9d case 2 => 0x9f case 3 => 0xa0 case 4 => 0xa1 case 5 => 0xa2 case 6 => 0xa3 case 7 => 0xa4
      case 8 => 0xa5 case 9 => 0xa6 case 10 => 0xa8 case 11 => 0xa9 case 12 => 0xaa case 13 => 0xab case 14 => 0xac case _ => 0xad
    )
    case 12 => (
      match i % 16
      case 0 => 0xaf case 1 => 0xb0 case 2 => 0xb1 case 3 => 0xb2 case 4 => 0xb3 case 5 => 0xb4 case 6 => 0xb6 case 7 => 0xb7
      case 8 => 0xb8 case 9 => 0xb9 case 10 => 0xba case 11 => 0xbc case 12 => 0xbd case 13 => 0xbe case 14 => 0xbf case _ => 0xc0
    )
    case 13 => (
      match i % 16
      case 0 => 0xc2 case 1 => 0xc3 case 2 => 0xc4 case 3 => 0xc5 case 4 => 0xc6 case 5 => 0xc8 case 6 => 0xc9 case 7 => 0xca
      case 8 => 0xcb case 9 => 0xcd case 10 => 0xce case 11 => 0xcf case 12 => 0xd0 case 13 => 0xd2 case 14 => 0xd3 case _ => 0xd4
    )
    case 14 => (
      match i % 16
      case 0 => 0xd6 case 1 => 0xd7 case 2 => 0xd8 case 3 => 0xd9 case 4 => 0xdb case 5 => 0xdc case 6 => 0xdd case 7 => 0xde
      case 8 => 0xe0 case 9 => 0xe1 case 10 => 0xe2 case 11 => 0xe4 case 12 => 0xe5 case 13 => 0xe6 case 14 => 0xe8 case _ => 0xe9
    )
    case _ => (
      match i % 16
      case 0 => 0xea case 1 => 0xec case 2 => 0xed case 3 => 0xee case 4 => 0xf0 case 5 => 0xf1 case 6 => 0xf2 case 7 => 0xf4
      case 8 => 0xf5 case 9 => 0xf6 case 10 => 0xf8 case 11 => 0xf9 case 12 => 0xfa case 13 => 0xfc case 14 => 0xfd case _ => 0xff
    )
  }
}
