/** The Huffman tables of jni/mpc/huffsv7.c and jni/mpc/huffsv46.c, and that each of them covers all 32-bit numbers. */
module MpcTables {
  import opened Machine
  import opened Bits
  import opened MpcBits

  function HuffHdrEntry(i: nat): Entry {
    match i
      case 0 => Entry(2147483648, 1, 0) case 1 => Entry(1610612736, 3, 1) case 2 => Entry(1577058304, 7, -4)
      case 3 => Entry(1568669696, 9, 3) case 4 => Entry(1560281088, 9, 4) case 5 => Entry(1543503872, 8, -5)
      case 6 => Entry(1476395008, 6, 2) case 7 => Entry(1342177280, 5, -3) case 8 => Entry(1073741824, 4, -2)
      case _ => Entry(0, 2, -1)
  }

  function HuffSCFIEntry(i: nat): Entry {
    match i
      case 0 => Entry(2147483648, 1, 1) case 1 => Entry(1610612736, 3, 2) case 2 => Entry(1073741824, 3, 0)
      case _ => Entry(0, 2, 3)
  }

  function HuffDSCFEntry(i: nat): Entry {
    match i
      case 0 => Entry(4160749568, 5, 5) case 1 => Entry(4026531840, 5, -4) case 2 => Entry(3758096384, 4, 3)
      case 3 => Entry(3489660928, 4, -3) case 4 => Entry(3221225472, 4, 8) case 5 => Entry(2684354560, 3, 1)
      case 6 => Entry(2415919104, 4, 0) case 7 => Entry(2281701376, 5, -5) case 8 => Entry(2214592512, 6, 7)
      case 9 => Entry(2147483648, 6, -7) case 10 => Entry(1610612736, 3, -1) case 11 => Entry(1073741824, 3, 2)
      case 12 => Entry(805306368, 4, 4) case 13 => Entry(671088640, 5, 6) case 14 => Entry(536870912, 5, -6)
      case _ => Entry(0, 3, -2)
  }

  function HuffQ1FirstEntry(i: nat): Entry {
    match i
      case 0 => Entry(3758096384, 3, 13) case 1 => Entry(3690987520, 6, 26) case 2 => Entry(3623878656, 6, 0)
      case 3 => Entry(3556769792, 6, 20) case 4 => Entry(3489660928, 6, 6) case 5 => Entry(3221225472, 4, 14)
      case 6 => Entry(2952790016, 4, 12) case 7 => Entry(2684354560, 4, 4) case 8 => Entry(2415919104, 4, 22)
      case 9 => Entry(2348810240, 6, 8) case 10 => Entry(2281701376, 6, 18) case 11 => Entry(2214592512, 6, 24)
      case 12 => Entry(2147483648, 6, 2) case 13 => Entry(1879048192, 4, 16) case 14 => Entry(1610612736, 4, 10)
      case 15 => Entry(1476395008, 5, 17) case 16 => Entry(1342177280, 5, 9) case 17 => Entry(1207959552, 5, 1)
      case 18 => Entry(1073741824, 5, 25) case 19 => Entry(939524096, 5, 5) case 20 => Entry(805306368, 5, 21)
      case 21 => Entry(671088640, 5, 3) case 22 => Entry(536870912, 5, 11) case 23 => Entry(402653184, 5, 15)
      case 24 => Entry(268435456, 5, 23) case 25 => Entry(134217728, 5, 19) case _ => Entry(0, 5, 7)
  }

  function HuffQ1SecondEntry(i: nat): Entry {
    match i
      case 0 => Entry(2147483648, 1, 13) case 1 => Entry(2113929216, 7, 15) case 2 => Entry(2080374784, 7, 1)
      case 3 => Entry(2046820352, 7, 11) case 4 => Entry(2013265920, 7, 7) case 5 => Entry(1979711488, 7, 17)
      case 6 => Entry(1946157056, 7, 25) case 7 => Entry(1912602624, 7, 19) case 8 => Entry(1904214016, 9, 8)
      case 9 => Entry(1895825408, 9, 18) case 10 => Entry(1887436800, 9, 2) case 11 => Entry(1879048192, 9, 24)
      case 12 => Entry(1845493760, 7, 3) case 13 => Entry(1811939328, 7, 23) case 14 => Entry(1778384896, 7, 21)
      case 15 => Entry(1744830464, 7, 5) case 16 => Entry(1728053248, 8, 0) case 17 => Entry(1711276032, 8, 26)
      case 18 => Entry(1694498816, 8, 6) case 19 => Entry(1677721600, 8, 20) case 20 => Entry(1610612736, 6, 9)
      case 21 => Entry(1342177280, 4, 14) case 22 => Entry(1073741824, 4, 12) case 23 => Entry(805306368, 4, 4)
      case 24 => Entry(536870912, 4, 22) case 25 => Entry(268435456, 4, 16) case _ => Entry(0, 4, 10)
  }

  function HuffQ2FirstEntry(i: nat): Entry {
    match i
      case 0 => Entry(4026531840, 4, 13) case 1 => Entry(3758096384, 4, 17) case 2 => Entry(3489660928, 4, 7)
      case 3 => Entry(3221225472, 4, 11) case 4 => Entry(3154116608, 6, 1) case 5 => Entry(3087007744, 6, 23)
      case 6 => Entry(3053453312, 7, 4) case 7 => Entry(3019898880, 7, 20) case 8 => Entry(2986344448, 7, 0)
      case 9 => Entry(2952790016, 7, 24) case 10 => Entry(2818572288, 5, 22) case 11 => Entry(2684354560, 5, 10)
      case 12 => Entry(2147483648, 3, 12) case 13 => Entry(2013265920, 5, 2) case 14 => Entry(1879048192, 5, 14)
      case 15 => Entry(1610612736, 4, 6) case 16 => Entry(1342177280, 4, 18) case 17 => Entry(1073741824, 4, 8)
      case 18 => Entry(805306368, 4, 16) case 19 => Entry(671088640, 5, 9) case 20 => Entry(536870912, 5, 5)
      case 21 => Entry(402653184, 5, 15) case 22 => Entry(268435456, 5, 21) case 23 => Entry(134217728, 5, 19)
      case _ => Entry(0, 5, 3)
  }

  function HuffQ2SecondEntry(i: nat): Entry {
    match i
      case 0 => Entry(4160749568, 5, 18) case 1 => Entry(4026531840, 5, 6) case 2 => Entry(3892314112, 5, 8)
      case 3 => Entry(3875536896, 8, 3) case 4 => Entry(3871342592, 10, 24) case 5 => Entry(3867148288, 10, 4)
      case 6 => Entry(3862953984, 10, 0) case 7 => Entry(3858759680, 10, 20) case 8 => Entry(3825205248, 7, 23)
      case 9 => Entry(3791650816, 7, 1) case 10 => Entry(3758096384, 7, 19) case 11 => Entry(3623878656, 5, 16)
      case 12 => Entry(3590324224, 7, 15) case 13 => Entry(3556769792, 7, 21) case 14 => Entry(3523215360, 7, 9)
      case 15 => Entry(3489660928, 7, 5) case 16 => Entry(3422552064, 6, 2) case 17 => Entry(3355443200, 6, 10)
      case 18 => Entry(3288334336, 6, 14) case 19 => Entry(3221225472, 6, 22) case 20 => Entry(2147483648, 2, 12)
      case 21 => Entry(1610612736, 3, 13) case 22 => Entry(1073741824, 3, 17) case 23 => Entry(536870912, 3, 11)
      case _ => Entry(0, 3, 7)
  }

  function HuffQ3FirstEntry(i: nat): Entry {
    match i
      case 0 => Entry(3758096384, 3, 1) case 1 => Entry(3489660928, 4, 3) case 2 => Entry(3221225472, 4, -3)
      case 3 => Entry(2684354560, 3, 2) case 4 => Entry(2147483648, 3, -2) case 5 => Entry(1073741824, 2, 0)
      case _ => Entry(0, 2, -1)
  }

  function HuffQ3SecondEntry(i: nat): Entry {
    match i
      case 0 => Entry(3221225472, 2, 0) case 1 => Entry(2147483648, 2, -1) case 2 => Entry(1073741824, 2, 1)
      case 3 => Entry(805306368, 4, -2) case 4 => Entry(671088640, 5, 3) case 5 => Entry(536870912, 5, -3)
      case _ => Entry(0, 3, 2)
  }

  function HuffQ4FirstEntry(i: nat): Entry {
    match i
      case 0 => Entry(3758096384, 3, 0) case 1 => Entry(3221225472, 3, -1) case 2 => Entry(2684354560, 3, 1)
      case 3 => Entry(2147483648, 3, -2) case 4 => Entry(1610612736, 3, 2) case 5 => Entry(1342177280, 4, -4)
      case 6 => Entry(1073741824, 4, 4) case 7 => Entry(536870912, 3, 3) case _ => Entry(0, 3, -3)
  }

  function HuffQ4SecondEntry(i: nat): Entry {
    match i
      case 0 => Entry(3758096384, 3, 1) case 1 => Entry(3489660928, 4, 2) case 2 => Entry(3221225472, 4, -3)
      case 3 => Entry(2147483648, 2, 0) case 4 => Entry(1610612736, 3, -2) case 5 => Entry(1342177280, 4, 3)
      case 6 => Entry(1207959552, 5, -4) case 7 => Entry(1073741824, 5, 4) case _ => Entry(0, 2, -1)
  }

  function HuffQ5FirstEntry(i: nat): Entry {
    match i
      case 0 => Entry(4026531840, 4, 2) case 1 => Entry(3892314112, 5, 5) case 2 => Entry(3825205248, 6, -7)
      case 3 => Entry(3758096384, 6, 7) case 4 => Entry(3489660928, 4, -3) case 5 => Entry(3221225472, 4, 3)
      case 6 => Entry(3087007744, 5, -6) case 7 => Entry(2952790016, 5, 6) case 8 => Entry(2684354560, 4, -4)
      case 9 => Entry(2415919104, 4, 4) case 10 => Entry(2147483648, 4, -5) case 11 => Entry(1610612736, 3, 0)
      case 12 => Entry(1073741824, 3, -1) case 13 => Entry(536870912, 3, 1) case _ => Entry(0, 3, -2)
  }

  function HuffQ5SecondEntry(i: nat): Entry {
    match i
      case 0 => Entry(4026531840, 4, 3) case 1 => Entry(3892314112, 5, 4) case 2 => Entry(3858759680, 7, 6)
      case 3 => Entry(3841982464, 8, -7) case 4 => Entry(3825205248, 8, 7) case 5 => Entry(3758096384, 6, -6)
      case 6 => Entry(3221225472, 3, 0) case 7 => Entry(2684354560, 3, -1) case 8 => Entry(2147483648, 3, 1)
      case 9 => Entry(1610612736, 3, -2) case 10 => Entry(1073741824, 3, 2) case 11 => Entry(939524096, 5, -5)
      case 12 => Entry(805306368, 5, 5) case 13 => Entry(536870912, 4, -4) case _ => Entry(0, 3, -3)
  }

  function HuffQ6FirstEntry(i: nat): Entry {
    match i
      case 0 => Entry(4160749568, 5, 3) case 1 => Entry(4026531840, 5, -4) case 2 => Entry(3959422976, 6, -11)
      case 3 => Entry(3892314112, 6, 12) case 4 => Entry(3758096384, 5, 4) case 5 => Entry(3623878656, 5, 6)
      case 6 => Entry(3489660928, 5, -5) case 7 => Entry(3355443200, 5, 5) case 8 => Entry(3221225472, 5, 7)
      case 9 => Entry(3087007744, 5, -7) case 10 => Entry(3019898880, 6, -12) case 11 => Entry(2952790016, 6, -13)
      case 12 => Entry(2818572288, 5, -6) case 13 => Entry(2684354560, 5, 8) case 14 => Entry(2550136832, 5, -8)
      case 15 => Entry(2415919104, 5, 9) case 16 => Entry(2281701376, 5, -9) case 17 => Entry(2214592512, 6, 13)
      case 18 => Entry(2181038080, 7, -15) case 19 => Entry(2147483648, 7, 15) case 20 => Entry(1879048192, 4, 0)
      case 21 => Entry(1744830464, 5, -10) case 22 => Entry(1610612736, 5, 10) case 23 => Entry(1342177280, 4, -1)
      case 24 => Entry(1073741824, 4, 2) case 25 => Entry(805306368, 4, 1) case 26 => Entry(536870912, 4, -2)
      case 27 => Entry(469762048, 6, 14) case 28 => Entry(402653184, 6, -14) case 29 => Entry(268435456, 5, 11)
      case _ => Entry(0, 4, -3)
  }

  function HuffQ6SecondEntry(i: nat): Entry {
    match i
      case 0 => Entry(4160749568, 5, -6) case 1 => Entry(4026531840, 5, 6) case 2 => Entry(3758096384, 4, 1)
      case 3 => Entry(3489660928, 4, -1) case 4 => Entry(3456106496, 7, 10) case 5 => Entry(3422552064, 7, -10)
      case 6 => Entry(3405774848, 8, -11) case 7 => Entry(3397386240, 9, -12) case 8 => Entry(3395289088, 11, 13)
      case 9 => Entry(3394764800, 13, 15) case 10 => Entry(3394240512, 13, -14) case 11 => Entry(3393716224, 13, 14)
      case 12 => Entry(3393191936, 13, -15) case 13 => Entry(3388997632, 10, -13) case 14 => Entry(3372220416, 8, 11)
      case 15 => Entry(3355443200, 8, 12) case 16 => Entry(3288334336, 6, -9) case 17 => Entry(3221225472, 6, 9)
      case 18 => Entry(2952790016, 4, -2) case 19 => Entry(2684354560, 4, 2) case 20 => Entry(2415919104, 4, 3)
      case 21 => Entry(2147483648, 4, -3) case 22 => Entry(2013265920, 5, -7) case 23 => Entry(1879048192, 5, 7)
      case 24 => Entry(1610612736, 4, -4) case 25 => Entry(1342177280, 4, 4) case 26 => Entry(1207959552, 5, -8)
      case 27 => Entry(1073741824, 5, 8) case 28 => Entry(805306368, 4, 5) case 29 => Entry(536870912, 4, -5)
      case _ => Entry(0, 3, 0)
  }

  function HuffQ7FirstEntry(i: nat): Entry {
    match i
      case 0 => Entry(4227858432, 6, 7) case 1 => Entry(4160749568, 6, 8) case 2 => Entry(4093640704, 6, 9)
      case 3 => Entry(4026531840, 6, -8) case 4 => Entry(3959422976, 6, 11) case 5 => Entry(3925868544, 7, 21)
      case 6 => Entry(3909091328, 8, -28) case 7 => Entry(3892314112, 8, 28) case 8 => Entry(3825205248, 6, -9)
      case 9 => Entry(3791650816, 7, -22) case 10 => Entry(3758096384, 7, -21) case 11 => Entry(3690987520, 6, -10)
      case 12 => Entry(3623878656, 6, -11) case 13 => Entry(3556769792, 6, 10) case 14 => Entry(3489660928, 6, 12)
      case 15 => Entry(3422552064, 6, -13) case 16 => Entry(3388997632, 7, 22) case 17 => Entry(3355443200, 7, 23)
      case 18 => Entry(3288334336, 6, -12) case 19 => Entry(3221225472, 6, 13) case 20 => Entry(3154116608, 6, 14)
      case 21 => Entry(3087007744, 6, -14) case 22 => Entry(3053453312, 7, -23) case 23 => Entry(3036676096, 8, -29)
      case 24 => Entry(3019898880, 8, 29) case 25 => Entry(2952790016, 6, -15) case 26 => Entry(2885681152, 6, 15)
      case 27 => Entry(2818572288, 6, 16) case 28 => Entry(2751463424, 6, -16) case 29 => Entry(2717908992, 7, -24)
      case 30 => Entry(2684354560, 7, 24) case 31 => Entry(2617245696, 6, 17) case 32 => Entry(2583691264, 7, -25)
      case 33 => Entry(2566914048, 8, -30) case 34 => Entry(2550136832, 8, 30) case 35 => Entry(2483027968, 6, -17)
      case 36 => Entry(2415919104, 6, 18) case 37 => Entry(2348810240, 6, -18) case 38 => Entry(2315255808, 7, 25)
      case 39 => Entry(2281701376, 7, 26) case 40 => Entry(2214592512, 6, 19) case 41 => Entry(2181038080, 7, -26)
      case 42 => Entry(2147483648, 7, -27) case 43 => Entry(2013265920, 5, 2) case 44 => Entry(1946157056, 6, -19)
      case 45 => Entry(1879048192, 6, 20) case 46 => Entry(1744830464, 5, -1) case 47 => Entry(1728053248, 8, -31)
      case 48 => Entry(1711276032, 8, 31) case 49 => Entry(1677721600, 7, 27) case 50 => Entry(1610612736, 6, -20)
      case 51 => Entry(1476395008, 5, 1) case 52 => Entry(1342177280, 5, -5) case 53 => Entry(1207959552, 5, -3)
      case 54 => Entry(1073741824, 5, 3) case 55 => Entry(939524096, 5, 0) case 56 => Entry(805306368, 5, -2)
      case 57 => Entry(671088640, 5, -4) case 58 => Entry(536870912, 5, 4) case 59 => Entry(402653184, 5, 5)
      case 60 => Entry(268435456, 5, -6) case 61 => Entry(134217728, 5, 6) case _ => Entry(0, 5, -7)
  }

  function HuffQ7SecondEntry(i: nat): Entry {
    match i
      case 0 => Entry(4160749568, 5, -1) case 1 => Entry(4026531840, 5, 2) case 2 => Entry(3892314112, 5, -2)
      case 3 => Entry(3758096384, 5, 3) case 4 => Entry(3741319168, 8, -20) case 5 => Entry(3737124864, 10, 24)
      case 6 => Entry(3736862720, 14, 28) case 7 => Entry(3736600576, 14, -28) case 8 => Entry(3736338432, 14, -30)
      case 9 => Entry(3736076288, 14, 30) case 10 => Entry(3735027712, 12, -27) case 11 => Entry(3734765568, 14, 29)
      case 12 => Entry(3734503424, 14, -29) case 13 => Entry(3734241280, 14, 31)
      case 14 => Entry(3733979136, 14, -31) case 15 => Entry(3732930560, 12, 27) case 16 => Entry(3724541952, 9, -22)
      case 17 => Entry(3690987520, 7, -17) case 18 => Entry(3623878656, 6, -11) case 19 => Entry(3489660928, 5, -3)
      case 20 => Entry(3355443200, 5, 4) case 21 => Entry(3221225472, 5, -4) case 22 => Entry(3187671040, 7, 17)
      case 23 => Entry(3170893824, 8, 20) case 24 => Entry(3162505216, 9, 22) case 25 => Entry(3158310912, 10, -25)
      case 26 => Entry(3154116608, 10, -26) case 27 => Entry(3087007744, 6, 12) case 28 => Entry(2952790016, 5, 5)
      case 29 => Entry(2818572288, 5, -5) case 30 => Entry(2684354560, 5, 6) case 31 => Entry(2550136832, 5, -6)
      case 32 => Entry(2483027968, 6, -12) case 33 => Entry(2449473536, 7, -18) case 34 => Entry(2415919104, 7, 18)
      case 35 => Entry(2348810240, 6, 13) case 36 => Entry(2281701376, 6, -13) case 37 => Entry(2147483648, 5, -7)
      case 38 => Entry(2080374784, 6, 14) case 39 => Entry(2063597568, 8, 21) case 40 => Entry(2046820352, 8, -21)
      case 41 => Entry(2013265920, 7, -19) case 42 => Entry(1879048192, 5, 7) case 43 => Entry(1744830464, 5, 8)
      case 44 => Entry(1677721600, 6, -14) case 45 => Entry(1610612736, 6, -15) case 46 => Entry(1476395008, 5, -8)
      case 47 => Entry(1409286144, 6, 15) case 48 => Entry(1375731712, 7, 19) case 49 => Entry(1371537408, 10, 25)
      case 50 => Entry(1367343104, 10, 26) case 51 => Entry(1358954496, 9, -23) case 52 => Entry(1350565888, 9, 23)
      case 53 => Entry(1342177280, 9, -24) case 54 => Entry(1207959552, 5, -9) case 55 => Entry(1073741824, 5, 9)
      case 56 => Entry(1006632960, 6, 16) case 57 => Entry(939524096, 6, -16) case 58 => Entry(805306368, 5, 10)
      case 59 => Entry(536870912, 4, 0) case 60 => Entry(402653184, 5, -10) case 61 => Entry(268435456, 5, 11)
      case _ => Entry(0, 4, 1)
  }

  function SCFIBundleEntry(i: nat): Entry {
    match i
      case 0 => Entry(2147483648, 1, 7) case 1 => Entry(1073741824, 2, 3) case 2 => Entry(939524096, 5, 1)
      case 3 => Entry(805306368, 5, 2) case 4 => Entry(738197504, 6, 0) case 5 => Entry(671088640, 6, 6)
      case 6 => Entry(536870912, 5, 4) case _ => Entry(0, 3, 5)
  }

  function DSCFEntropieEntry(i: nat): Entry {
    match i
      case 0 => Entry(3758096384, 3, 1) case 1 => Entry(3489660928, 4, 3) case 2 => Entry(3355443200, 5, 5)
      case 3 => Entry(3221225472, 5, -3) case 4 => Entry(2952790016, 4, -2) case 5 => Entry(2684354560, 4, 4)
      case 6 => Entry(2147483648, 3, -1) case 7 => Entry(1610612736, 3, 2) case 8 => Entry(1476395008, 5, -5)
      case 9 => Entry(1409286144, 6, 6) case 10 => Entry(1342177280, 6, -6) case 11 => Entry(1073741824, 4, -4)
      case _ => Entry(0, 2, 0)
  }

  function RegionAEntry(i: nat): Entry {
    match i
      case 0 => Entry(2147483648, 1, 1) case 1 => Entry(2013265920, 5, 3) case 2 => Entry(1946157056, 6, 4)
      case 3 => Entry(1912602624, 7, 7) case 4 => Entry(1895825408, 8, 8) case 5 => Entry(1887436800, 9, 9)
      case 6 => Entry(1883242496, 10, 10) case 7 => Entry(1881145344, 11, 11) case 8 => Entry(1880096768, 12, 12)
      case 9 => Entry(1879572480, 13, 13) case 10 => Entry(1879310336, 14, 14) case 11 => Entry(1879048192, 14, 15)
      case 12 => Entry(1744830464, 5, 5) case 13 => Entry(1610612736, 5, 6) case 14 => Entry(1073741824, 3, 0)
      case _ => Entry(0, 2, 2)
  }

  function RegionBEntry(i: nat): Entry {
    match i
      case 0 => Entry(2147483648, 1, 1) case 1 => Entry(1073741824, 2, 0) case 2 => Entry(536870912, 3, 2)
      case 3 => Entry(268435456, 4, 3) case 4 => Entry(134217728, 5, 4) case 5 => Entry(67108864, 6, 5)
      case 6 => Entry(33554432, 7, 6) case _ => Entry(0, 7, 7)
  }

  function RegionCEntry(i: nat): Entry {
    match i
      case 0 => Entry(2147483648, 1, 0) case 1 => Entry(1073741824, 2, 1) case 2 => Entry(536870912, 3, 2)
      case _ => Entry(0, 3, 3)
  }

  function Entropie1Entry(i: nat): Entry {
    match i
      case 0 => Entry(2147483648, 1, 0) case 1 => Entry(1073741824, 2, -1) case _ => Entry(0, 2, 1)
  }

  function Entropie2Entry(i: nat): Entry {
    match i
      case 0 => Entry(3221225472, 2, 0) case 1 => Entry(2684354560, 3, 2) case 2 => Entry(2147483648, 3, -2)
      case 3 => Entry(1073741824, 2, 1) case _ => Entry(0, 2, -1)
  }

  function Entropie3Entry(i: nat): Entry {
    match i
      case 0 => Entry(3221225472, 2, 0) case 1 => Entry(2684354560, 3, -2) case 2 => Entry(2415919104, 4, 2)
      case 3 => Entry(2281701376, 5, -3) case 4 => Entry(2147483648, 5, 3) case 5 => Entry(1073741824, 2, -1)
      case _ => Entry(0, 2, 1)
  }

  function Entropie4Entry(i: nat): Entry {
    match i
      case 0 => Entry(4026531840, 4, 3) case 1 => Entry(3758096384, 4, -3) case 2 => Entry(3221225472, 3, 1)
      case 3 => Entry(2684354560, 3, -1) case 4 => Entry(2147483648, 3, 2) case 5 => Entry(1610612736, 3, -2)
      case 6 => Entry(1342177280, 4, -4) case 7 => Entry(1073741824, 4, 4) case _ => Entry(0, 2, 0)
  }

  function Entropie5Entry(i: nat): Entry {
    match i
      case 0 => Entry(4026531840, 4, -2) case 1 => Entry(3892314112, 5, -5) case 2 => Entry(3825205248, 6, -7)
      case 3 => Entry(3758096384, 6, 7) case 4 => Entry(3489660928, 4, -3) case 5 => Entry(3221225472, 4, 3)
      case 6 => Entry(3087007744, 5, -6) case 7 => Entry(2952790016, 5, 6) case 8 => Entry(2684354560, 4, 4)
      case 9 => Entry(2147483648, 3, 0) case 10 => Entry(1610612736, 3, 1) case 11 => Entry(1073741824, 3, -1)
      case 12 => Entry(805306368, 4, -4) case 13 => Entry(536870912, 4, 5) case _ => Entry(0, 3, 2)
  }

  function Entropie6Entry(i: nat): Entry {
    match i
      case 0 => Entry(4160749568, 5, -4) case 1 => Entry(4026531840, 5, 5) case 2 => Entry(3892314112, 5, -5)
      case 3 => Entry(3825205248, 6, 10) case 4 => Entry(3758096384, 6, -10) case 5 => Entry(3623878656, 5, -6)
      case 6 => Entry(3489660928, 5, 6) case 7 => Entry(3355443200, 5, 7) case 8 => Entry(3221225472, 5, -7)
      case 9 => Entry(3087007744, 5, -8) case 10 => Entry(3019898880, 6, -11) case 11 => Entry(2986344448, 7, 14)
      case 12 => Entry(2952790016, 7, -14) case 13 => Entry(2818572288, 5, 8) case 14 => Entry(2751463424, 6, 11)
      case 15 => Entry(2684354560, 6, -13) case 16 => Entry(2415919104, 4, 0) case 17 => Entry(2147483648, 4, 1)
      case 18 => Entry(1879048192, 4, -1) case 19 => Entry(1610612736, 4, 3) case 20 => Entry(1342177280, 4, 2)
      case 21 => Entry(1207959552, 5, -9) case 22 => Entry(1140850688, 6, 12) case 23 => Entry(1073741824, 6, 13)
      case 24 => Entry(805306368, 4, -3) case 25 => Entry(536870912, 4, -2) case 26 => Entry(402653184, 5, 9)
      case 27 => Entry(335544320, 6, -12) case 28 => Entry(301989888, 7, 15) case 29 => Entry(268435456, 7, -15)
      case _ => Entry(0, 4, 4)
  }

  function Entropie7Entry(i: nat): Entry {
    match i
      case 0 => Entry(4278190080, 8, 28) case 1 => Entry(4261412864, 8, 26) case 2 => Entry(4227858432, 7, -20)
      case 3 => Entry(4160749568, 6, 8) case 4 => Entry(4093640704, 6, -8) case 5 => Entry(4026531840, 6, -9)
      case 6 => Entry(3959422976, 6, 9) case 7 => Entry(3925868544, 7, 20) case 8 => Entry(3892314112, 7, 21)
      case 9 => Entry(3825205248, 6, -10) case 10 => Entry(3758096384, 6, -11) case 11 => Entry(3690987520, 6, 10)
      case 12 => Entry(3623878656, 6, 11) case 13 => Entry(3590324224, 7, -21) case 14 => Entry(3573547008, 8, 29)
      case 15 => Entry(3556769792, 8, -29) case 16 => Entry(3489660928, 6, 13) case 17 => Entry(3422552064, 6, -13)
      case 18 => Entry(3355443200, 6, -12) case 19 => Entry(3288334336, 6, 12) case 20 => Entry(3254779904, 7, -22)
      case 21 => Entry(3221225472, 7, 22) case 22 => Entry(3154116608, 6, 14) case 23 => Entry(3087007744, 6, 15)
      case 24 => Entry(3019898880, 6, -14) case 25 => Entry(2986344448, 7, -23) case 26 => Entry(2952790016, 7, 23)
      case 27 => Entry(2885681152, 6, -15) case 28 => Entry(2818572288, 6, -16) case 29 => Entry(2751463424, 6, 16)
      case 30 => Entry(2717908992, 7, 27) case 31 => Entry(2684354560, 7, -27) case 32 => Entry(2617245696, 6, 17)
      case 33 => Entry(2550136832, 6, -17) case 34 => Entry(2533359616, 8, -30) case 35 => Entry(2516582400, 8, 30)
      case 36 => Entry(2483027968, 7, 24) case 37 => Entry(2415919104, 6, -18) case 38 => Entry(2281701376, 5, -1)
      case 39 => Entry(2147483648, 5, 1) case 40 => Entry(2113929216, 7, -24) case 41 => Entry(2080374784, 7, 25)
      case 42 => Entry(2013265920, 6, 18) case 43 => Entry(1879048192, 5, -3) case 44 => Entry(1744830464, 5, 3)
      case 45 => Entry(1610612736, 5, 5) case 46 => Entry(1476395008, 5, 0) case 47 => Entry(1342177280, 5, -2)
      case 48 => Entry(1275068416, 6, 19) case 49 => Entry(1207959552, 6, -19) case 50 => Entry(1073741824, 5, -5)
      case 51 => Entry(939524096, 5, -4) case 52 => Entry(805306368, 5, -7) case 53 => Entry(671088640, 5, 2)
      case 54 => Entry(536870912, 5, 4) case 55 => Entry(402653184, 5, 7) case 56 => Entry(369098752, 7, -25)
      case 57 => Entry(335544320, 7, -26) case 58 => Entry(301989888, 7, -28) case 59 => Entry(285212672, 8, -31)
      case 60 => Entry(268435456, 8, 31) case 61 => Entry(134217728, 5, 6) case _ => Entry(0, 5, -6)
  }

  // ---------------------------------------------------------------- every table tiles

  /** A table of n entries. */
  function Table(n: nat, entry: nat -> Entry): (t: seq<Entry>)
    ensures |t| == n && forall i :: 0 <= i < n ==> t[i] == entry(i)
  {
    seq(n, i requires 0 <= i < n => entry(i))
  }

  /** Entry e behind one whose interval begins at `above`. */
  predicate Follows(e: Entry, above: int, maxLength: nat) {
    1 <= e.length <= maxLength <= 32 && e.code + SizeOf(e.length) == above && e.code % SizeOf(e.length) == 0
  }

  /** `1 << (32 - length)`, for the lengths that occur. */
  function SizeOf(length: nat): nat
  {
    match length
    case 1 => 0x8000_0000 case 2 => 0x4000_0000 case 3 => 0x2000_0000 case 4 => 0x1000_0000
    case 5 => 0x800_0000 case 6 => 0x400_0000 case 7 => 0x200_0000 case 8 => 0x100_0000
    case 9 => 0x80_0000 case 10 => 0x40_0000 case 11 => 0x20_0000 case 12 => 0x10_0000
    case 13 => 0x8_0000 case 14 => 0x4_0000 case _ => 1
  }

  /** Entry i against the one before it. */
  predicate FollowsAt(entry: nat -> Entry, i: nat, maxLength: nat) {
    Follows(entry(i), if i == 0 then TWO32 else entry(i - 1).code, maxLength)
  }

  lemma {:induction false} SizeIsPower(length: nat)
    requires 1 <= length <= 14
    ensures Pow2(32 - length) == SizeOf(length)
    decreases 14 - length
  {
    if length == 14 {
      assert Pow2(9) == 512;
      Pow2Add(9, 9);
    } else {
      SizeIsPower(length + 1);
    }
  }

  lemma FollowsFits(n: nat, entry: nat -> Entry, i: nat, maxLength: nat)
    requires i < n && maxLength <= 14 && FollowsAt(entry, i, maxLength)
    ensures EntryFits(Table(n, entry), i, maxLength)
  {
    hide Pow2, SizeOf;
    SizeIsPower(entry(i).length);
  }

  lemma AllFollow(n: nat, entry: nat -> Entry, maxLength: nat)
    requires n > 0 && maxLength <= 14 && entry(n - 1).code == 0
    requires forall i :: 0 <= i < n ==> FollowsAt(entry, i, maxLength)
    ensures Tiles(Table(n, entry), maxLength)
  {
    hide EntryFits, FollowsAt;
    forall i | 0 <= i < n
      ensures EntryFits(Table(n, entry), i, maxLength)
    {
      FollowsFits(n, entry, i, maxLength);
    }
  }

  lemma HuffHdrFollows(i: nat)
    requires i < 10
    ensures FollowsAt(HuffHdrEntry, i, 9)
  { }

  lemma HuffSCFIFollows(i: nat)
    requires i < 4
    ensures FollowsAt(HuffSCFIEntry, i, 3)
  { }

  lemma HuffDSCFFollows(i: nat)
    requires i < 16
    ensures FollowsAt(HuffDSCFEntry, i, 6)
  { }

  lemma HuffQ1FirstFollows0(i: nat)
    requires 0 <= i < 16
    ensures FollowsAt(HuffQ1FirstEntry, i, 9)
  { }

  lemma HuffQ1FirstFollows1(i: nat)
    requires 16 <= i < 27
    ensures FollowsAt(HuffQ1FirstEntry, i, 9)
  { }

  lemma HuffQ1FirstFollows(i: nat)
    requires i < 27
    ensures FollowsAt(HuffQ1FirstEntry, i, 9)
  {
    hide HuffQ1FirstEntry;
    if i < 16 {
      HuffQ1FirstFollows0(i);
    } else {
      HuffQ1FirstFollows1(i);
    }
  }

  lemma HuffQ1SecondFollows0(i: nat)
    requires 0 <= i < 16
    ensures FollowsAt(HuffQ1SecondEntry, i, 9)
  { }

  lemma HuffQ1SecondFollows1(i: nat)
    requires 16 <= i < 27
    ensures FollowsAt(HuffQ1SecondEntry, i, 9)
  { }

  lemma HuffQ1SecondFollows(i: nat)
    requires i < 27
    ensures FollowsAt(HuffQ1SecondEntry, i, 9)
  {
    hide HuffQ1SecondEntry;
    if i < 16 {
      HuffQ1SecondFollows0(i);
    } else {
      HuffQ1SecondFollows1(i);
    }
  }

  lemma HuffQ2FirstFollows0(i: nat)
    requires 0 <= i < 16
    ensures FollowsAt(HuffQ2FirstEntry, i, 10)
  { }

  lemma HuffQ2FirstFollows1(i: nat)
    requires 16 <= i < 25
    ensures FollowsAt(HuffQ2FirstEntry, i, 10)
  { }

  lemma HuffQ2FirstFollows(i: nat)
    requires i < 25
    ensures FollowsAt(HuffQ2FirstEntry, i, 10)
  {
    hide HuffQ2FirstEntry;
    if i < 16 {
      HuffQ2FirstFollows0(i);
    } else {
      HuffQ2FirstFollows1(i);
    }
  }

  lemma HuffQ2SecondFollows0(i: nat)
    requires 0 <= i < 16
    ensures FollowsAt(HuffQ2SecondEntry, i, 10)
  { }

  lemma HuffQ2SecondFollows1(i: nat)
    requires 16 <= i < 25
    ensures FollowsAt(HuffQ2SecondEntry, i, 10)
  { }

  lemma HuffQ2SecondFollows(i: nat)
    requires i < 25
    ensures FollowsAt(HuffQ2SecondEntry, i, 10)
  {
    hide HuffQ2SecondEntry;
    if i < 16 {
      HuffQ2SecondFollows0(i);
    } else {
      HuffQ2SecondFollows1(i);
    }
  }

  lemma HuffQ3FirstFollows(i: nat)
    requires i < 7
    ensures FollowsAt(HuffQ3FirstEntry, i, 5)
  { }

  lemma HuffQ3SecondFollows(i: nat)
    requires i < 7
    ensures FollowsAt(HuffQ3SecondEntry, i, 5)
  { }

  lemma HuffQ4FirstFollows(i: nat)
    requires i < 9
    ensures FollowsAt(HuffQ4FirstEntry, i, 5)
  { }

  lemma HuffQ4SecondFollows(i: nat)
    requires i < 9
    ensures FollowsAt(HuffQ4SecondEntry, i, 5)
  { }

  lemma HuffQ5FirstFollows(i: nat)
    requires i < 15
    ensures FollowsAt(HuffQ5FirstEntry, i, 8)
  { }

  lemma HuffQ5SecondFollows(i: nat)
    requires i < 15
    ensures FollowsAt(HuffQ5SecondEntry, i, 8)
  { }

  lemma HuffQ6FirstFollows0(i: nat)
    requires 0 <= i < 16
    ensures FollowsAt(HuffQ6FirstEntry, i, 14)
  { }

  lemma HuffQ6FirstFollows1(i: nat)
    requires 16 <= i < 31
    ensures FollowsAt(HuffQ6FirstEntry, i, 14)
  { }

  lemma HuffQ6FirstFollows(i: nat)
    requires i < 31
    ensures FollowsAt(HuffQ6FirstEntry, i, 14)
  {
    hide HuffQ6FirstEntry;
    if i < 16 {
      HuffQ6FirstFollows0(i);
    } else {
      HuffQ6FirstFollows1(i);
    }
  }

  lemma HuffQ6SecondFollows0(i: nat)
    requires 0 <= i < 16
    ensures FollowsAt(HuffQ6SecondEntry, i, 14)
  { }

  lemma HuffQ6SecondFollows1(i: nat)
    requires 16 <= i < 31
    ensures FollowsAt(HuffQ6SecondEntry, i, 14)
  { }

  lemma HuffQ6SecondFollows(i: nat)
    requires i < 31
    ensures FollowsAt(HuffQ6SecondEntry, i, 14)
  {
    hide HuffQ6SecondEntry;
    if i < 16 {
      HuffQ6SecondFollows0(i);
    } else {
      HuffQ6SecondFollows1(i);
    }
  }

  lemma HuffQ7FirstFollows0(i: nat)
    requires 0 <= i < 8
    ensures FollowsAt(HuffQ7FirstEntry, i, 14)
  { }

  lemma HuffQ7FirstFollows1(i: nat)
    requires 8 <= i < 16
    ensures FollowsAt(HuffQ7FirstEntry, i, 14)
  { }

  lemma HuffQ7FirstFollows2(i: nat)
    requires 16 <= i < 24
    ensures FollowsAt(HuffQ7FirstEntry, i, 14)
  { }

  lemma HuffQ7FirstFollows3(i: nat)
    requires 24 <= i < 32
    ensures FollowsAt(HuffQ7FirstEntry, i, 14)
  { }

  lemma HuffQ7FirstFollows4(i: nat)
    requires 32 <= i < 40
    ensures FollowsAt(HuffQ7FirstEntry, i, 14)
  { }

  lemma HuffQ7FirstFollows5(i: nat)
    requires 40 <= i < 48
    ensures FollowsAt(HuffQ7FirstEntry, i, 14)
  { }

  lemma HuffQ7FirstFollows6(i: nat)
    requires 48 <= i < 56
    ensures FollowsAt(HuffQ7FirstEntry, i, 14)
  { }

  lemma HuffQ7FirstFollows7(i: nat)
    requires 56 <= i < 63
    ensures FollowsAt(HuffQ7FirstEntry, i, 14)
  { }

  lemma HuffQ7FirstFollows(i: nat)
    requires i < 63
    ensures FollowsAt(HuffQ7FirstEntry, i, 14)
  {
    hide HuffQ7FirstEntry;
    if i < 8 {
      HuffQ7FirstFollows0(i);
    } else if i < 16 {
      HuffQ7FirstFollows1(i);
    } else if i < 24 {
      HuffQ7FirstFollows2(i);
    } else if i < 32 {
      HuffQ7FirstFollows3(i);
    } else if i < 40 {
      HuffQ7FirstFollows4(i);
    } else if i < 48 {
      HuffQ7FirstFollows5(i);
    } else if i < 56 {
      HuffQ7FirstFollows6(i);
    } else {
      HuffQ7FirstFollows7(i);
    }
  }

  lemma HuffQ7SecondFollows0(i: nat)
    requires 0 <= i < 8
    ensures FollowsAt(HuffQ7SecondEntry, i, 14)
  { }

  lemma HuffQ7SecondFollows1(i: nat)
    requires 8 <= i < 16
    ensures FollowsAt(HuffQ7SecondEntry, i, 14)
  { }

  lemma HuffQ7SecondFollows2(i: nat)
    requires 16 <= i < 24
    ensures FollowsAt(HuffQ7SecondEntry, i, 14)
  { }

  lemma HuffQ7SecondFollows3(i: nat)
    requires 24 <= i < 32
    ensures FollowsAt(HuffQ7SecondEntry, i, 14)
  { }

  lemma HuffQ7SecondFollows4(i: nat)
    requires 32 <= i < 40
    ensures FollowsAt(HuffQ7SecondEntry, i, 14)
  { }

  lemma HuffQ7SecondFollows5(i: nat)
    requires 40 <= i < 48
    ensures FollowsAt(HuffQ7SecondEntry, i, 14)
  { }

  lemma HuffQ7SecondFollows6(i: nat)
    requires 48 <= i < 56
    ensures FollowsAt(HuffQ7SecondEntry, i, 14)
  { }

  lemma HuffQ7SecondFollows7(i: nat)
    requires 56 <= i < 63
    ensures FollowsAt(HuffQ7SecondEntry, i, 14)
  { }

  lemma HuffQ7SecondFollows(i: nat)
    requires i < 63
    ensures FollowsAt(HuffQ7SecondEntry, i, 14)
  {
    hide HuffQ7SecondEntry;
    if i < 8 {
      HuffQ7SecondFollows0(i);
    } else if i < 16 {
      HuffQ7SecondFollows1(i);
    } else if i < 24 {
      HuffQ7SecondFollows2(i);
    } else if i < 32 {
      HuffQ7SecondFollows3(i);
    } else if i < 40 {
      HuffQ7SecondFollows4(i);
    } else if i < 48 {
      HuffQ7SecondFollows5(i);
    } else if i < 56 {
      HuffQ7SecondFollows6(i);
    } else {
      HuffQ7SecondFollows7(i);
    }
  }

  lemma SCFIBundleFollows(i: nat)
    requires i < 8
    ensures FollowsAt(SCFIBundleEntry, i, 6)
  { }

  lemma DSCFEntropieFollows(i: nat)
    requires i < 13
    ensures FollowsAt(DSCFEntropieEntry, i, 6)
  { }

  lemma RegionAFollows(i: nat)
    requires i < 16
    ensures FollowsAt(RegionAEntry, i, 14)
  { }

  lemma RegionBFollows(i: nat)
    requires i < 8
    ensures FollowsAt(RegionBEntry, i, 14)
  { }

  lemma RegionCFollows(i: nat)
    requires i < 4
    ensures FollowsAt(RegionCEntry, i, 14)
  { }

  lemma Entropie1Follows(i: nat)
    requires i < 3
    ensures FollowsAt(Entropie1Entry, i, 8)
  { }

  lemma Entropie2Follows(i: nat)
    requires i < 5
    ensures FollowsAt(Entropie2Entry, i, 8)
  { }

  lemma Entropie3Follows(i: nat)
    requires i < 7
    ensures FollowsAt(Entropie3Entry, i, 8)
  { }

  lemma Entropie4Follows(i: nat)
    requires i < 9
    ensures FollowsAt(Entropie4Entry, i, 8)
  { }

  lemma Entropie5Follows(i: nat)
    requires i < 15
    ensures FollowsAt(Entropie5Entry, i, 8)
  { }

  lemma Entropie6Follows0(i: nat)
    requires 0 <= i < 16
    ensures FollowsAt(Entropie6Entry, i, 8)
  { }

  lemma Entropie6Follows1(i: nat)
    requires 16 <= i < 31
    ensures FollowsAt(Entropie6Entry, i, 8)
  { }

  lemma Entropie6Follows(i: nat)
    requires i < 31
    ensures FollowsAt(Entropie6Entry, i, 8)
  {
    hide Entropie6Entry;
    if i < 16 {
      Entropie6Follows0(i);
    } else {
      Entropie6Follows1(i);
    }
  }

  lemma Entropie7Follows0(i: nat)
    requires 0 <= i < 8
    ensures FollowsAt(Entropie7Entry, i, 8)
  { }

  lemma Entropie7Follows1(i: nat)
    requires 8 <= i < 16
    ensures FollowsAt(Entropie7Entry, i, 8)
  { }

  lemma Entropie7Follows2(i: nat)
    requires 16 <= i < 24
    ensures FollowsAt(Entropie7Entry, i, 8)
  { }

  lemma Entropie7Follows3(i: nat)
    requires 24 <= i < 32
    ensures FollowsAt(Entropie7Entry, i, 8)
  { }

  lemma Entropie7Follows4(i: nat)
    requires 32 <= i < 40
    ensures FollowsAt(Entropie7Entry, i, 8)
  { }

  lemma Entropie7Follows5(i: nat)
    requires 40 <= i < 48
    ensures FollowsAt(Entropie7Entry, i, 8)
  { }

  lemma Entropie7Follows6(i: nat)
    requires 48 <= i < 56
    ensures FollowsAt(Entropie7Entry, i, 8)
  { }

  lemma Entropie7Follows7(i: nat)
    requires 56 <= i < 63
    ensures FollowsAt(Entropie7Entry, i, 8)
  { }

  lemma Entropie7Follows(i: nat)
    requires i < 63
    ensures FollowsAt(Entropie7Entry, i, 8)
  {
    hide Entropie7Entry;
    if i < 8 {
      Entropie7Follows0(i);
    } else if i < 16 {
      Entropie7Follows1(i);
    } else if i < 24 {
      Entropie7Follows2(i);
    } else if i < 32 {
      Entropie7Follows3(i);
    } else if i < 40 {
      Entropie7Follows4(i);
    } else if i < 48 {
      Entropie7Follows5(i);
    } else if i < 56 {
      Entropie7Follows6(i);
    } else {
      Entropie7Follows7(i);
    }
  }

  /** The tables of stream version 7. */
  datatype TableOf7 =
    | HuffHdr | HuffSCFI | HuffDSCF | HuffQ1First | HuffQ1Second | HuffQ2First | HuffQ2Second | HuffQ3First
    | HuffQ3Second | HuffQ4First | HuffQ4Second | HuffQ5First | HuffQ5Second | HuffQ6First | HuffQ6Second
    | HuffQ7First | HuffQ7Second

  /** The table, and the longest codeword the decoder looks up in it. */
  function LookupOf7(name: TableOf7): (r: (seq<Entry>, nat)) {
    match name
    case HuffHdr => (Table(10, HuffHdrEntry), 9)
    case HuffSCFI => (Table(4, HuffSCFIEntry), 3)
    case HuffDSCF => (Table(16, HuffDSCFEntry), 6)
    case HuffQ1First => (Table(27, HuffQ1FirstEntry), 9)
    case HuffQ1Second => (Table(27, HuffQ1SecondEntry), 9)
    case HuffQ2First => (Table(25, HuffQ2FirstEntry), 10)
    case HuffQ2Second => (Table(25, HuffQ2SecondEntry), 10)
    case HuffQ3First => (Table(7, HuffQ3FirstEntry), 5)
    case HuffQ3Second => (Table(7, HuffQ3SecondEntry), 5)
    case HuffQ4First => (Table(9, HuffQ4FirstEntry), 5)
    case HuffQ4Second => (Table(9, HuffQ4SecondEntry), 5)
    case HuffQ5First => (Table(15, HuffQ5FirstEntry), 8)
    case HuffQ5Second => (Table(15, HuffQ5SecondEntry), 8)
    case HuffQ6First => (Table(31, HuffQ6FirstEntry), 14)
    case HuffQ6Second => (Table(31, HuffQ6SecondEntry), 14)
    case HuffQ7First => (Table(63, HuffQ7FirstEntry), 14)
    case HuffQ7Second => (Table(63, HuffQ7SecondEntry), 14)
  }

  lemma TablesOf7Tile(name: TableOf7)
    ensures var (table, maxLength) := LookupOf7(name); Tiles(table, maxLength)
  {
    hide FollowsAt, Tiles, Table;
    match name {
      case HuffHdr =>
        forall i: nat | i < 10 ensures FollowsAt(HuffHdrEntry, i, 9) { HuffHdrFollows(i); }
        AllFollow(10, HuffHdrEntry, 9);
      case HuffSCFI =>
        forall i: nat | i < 4 ensures FollowsAt(HuffSCFIEntry, i, 3) { HuffSCFIFollows(i); }
        AllFollow(4, HuffSCFIEntry, 3);
      case HuffDSCF =>
        forall i: nat | i < 16 ensures FollowsAt(HuffDSCFEntry, i, 6) { HuffDSCFFollows(i); }
        AllFollow(16, HuffDSCFEntry, 6);
      case HuffQ1First =>
        forall i: nat | i < 27 ensures FollowsAt(HuffQ1FirstEntry, i, 9) { HuffQ1FirstFollows(i); }
        AllFollow(27, HuffQ1FirstEntry, 9);
      case HuffQ1Second =>
        forall i: nat | i < 27 ensures FollowsAt(HuffQ1SecondEntry, i, 9) { HuffQ1SecondFollows(i); }
        AllFollow(27, HuffQ1SecondEntry, 9);
      case HuffQ2First =>
        forall i: nat | i < 25 ensures FollowsAt(HuffQ2FirstEntry, i, 10) { HuffQ2FirstFollows(i); }
        AllFollow(25, HuffQ2FirstEntry, 10);
      case HuffQ2Second =>
        forall i: nat | i < 25 ensures FollowsAt(HuffQ2SecondEntry, i, 10) { HuffQ2SecondFollows(i); }
        AllFollow(25, HuffQ2SecondEntry, 10);
      case HuffQ3First =>
        forall i: nat | i < 7 ensures FollowsAt(HuffQ3FirstEntry, i, 5) { HuffQ3FirstFollows(i); }
        AllFollow(7, HuffQ3FirstEntry, 5);
      case HuffQ3Second =>
        forall i: nat | i < 7 ensures FollowsAt(HuffQ3SecondEntry, i, 5) { HuffQ3SecondFollows(i); }
        AllFollow(7, HuffQ3SecondEntry, 5);
      case HuffQ4First =>
        forall i: nat | i < 9 ensures FollowsAt(HuffQ4FirstEntry, i, 5) { HuffQ4FirstFollows(i); }
        AllFollow(9, HuffQ4FirstEntry, 5);
      case HuffQ4Second =>
        forall i: nat | i < 9 ensures FollowsAt(HuffQ4SecondEntry, i, 5) { HuffQ4SecondFollows(i); }
        AllFollow(9, HuffQ4SecondEntry, 5);
      case HuffQ5First =>
        forall i: nat | i < 15 ensures FollowsAt(HuffQ5FirstEntry, i, 8) { HuffQ5FirstFollows(i); }
        AllFollow(15, HuffQ5FirstEntry, 8);
      case HuffQ5Second =>
        forall i: nat | i < 15 ensures FollowsAt(HuffQ5SecondEntry, i, 8) { HuffQ5SecondFollows(i); }
        AllFollow(15, HuffQ5SecondEntry, 8);
      case HuffQ6First =>
        forall i: nat | i < 31 ensures FollowsAt(HuffQ6FirstEntry, i, 14) { HuffQ6FirstFollows(i); }
        AllFollow(31, HuffQ6FirstEntry, 14);
      case HuffQ6Second =>
        forall i: nat | i < 31 ensures FollowsAt(HuffQ6SecondEntry, i, 14) { HuffQ6SecondFollows(i); }
        AllFollow(31, HuffQ6SecondEntry, 14);
      case HuffQ7First =>
        forall i: nat | i < 63 ensures FollowsAt(HuffQ7FirstEntry, i, 14) { HuffQ7FirstFollows(i); }
        AllFollow(63, HuffQ7FirstEntry, 14);
      case HuffQ7Second =>
        forall i: nat | i < 63 ensures FollowsAt(HuffQ7SecondEntry, i, 14) { HuffQ7SecondFollows(i); }
        AllFollow(63, HuffQ7SecondEntry, 14);
    }
  }

  /** The tables of stream versions 4 to 6. */
  datatype TableOf46 =
    | SCFIBundle | DSCFEntropie | RegionA | RegionB | RegionC | Entropie1 | Entropie2 | Entropie3 | Entropie4
    | Entropie5 | Entropie6 | Entropie7

  /** The table, and the longest codeword the decoder looks up in it. */
  function LookupOf46(name: TableOf46): (r: (seq<Entry>, nat)) {
    match name
    case SCFIBundle => (Table(8, SCFIBundleEntry), 6)
    case DSCFEntropie => (Table(13, DSCFEntropieEntry), 6)
    case RegionA => (Table(16, RegionAEntry), 14)
    case RegionB => (Table(8, RegionBEntry), 14)
    case RegionC => (Table(4, RegionCEntry), 14)
    case Entropie1 => (Table(3, Entropie1Entry), 8)
    case Entropie2 => (Table(5, Entropie2Entry), 8)
    case Entropie3 => (Table(7, Entropie3Entry), 8)
    case Entropie4 => (Table(9, Entropie4Entry), 8)
    case Entropie5 => (Table(15, Entropie5Entry), 8)
    case Entropie6 => (Table(31, Entropie6Entry), 8)
    case Entropie7 => (Table(63, Entropie7Entry), 8)
  }

  lemma TablesOf46Tile(name: TableOf46)
    ensures var (table, maxLength) := LookupOf46(name); Tiles(table, maxLength)
  {
    hide FollowsAt, Tiles, Table;
    match name {
      case SCFIBundle =>
        forall i: nat | i < 8 ensures FollowsAt(SCFIBundleEntry, i, 6) { SCFIBundleFollows(i); }
        AllFollow(8, SCFIBundleEntry, 6);
      case DSCFEntropie =>
        forall i: nat | i < 13 ensures FollowsAt(DSCFEntropieEntry, i, 6) { DSCFEntropieFollows(i); }
        AllFollow(13, DSCFEntropieEntry, 6);
      case RegionA =>
        forall i: nat | i < 16 ensures FollowsAt(RegionAEntry, i, 14) { RegionAFollows(i); }
        AllFollow(16, RegionAEntry, 14);
      case RegionB =>
        forall i: nat | i < 8 ensures FollowsAt(RegionBEntry, i, 14) { RegionBFollows(i); }
        AllFollow(8, RegionBEntry, 14);
      case RegionC =>
        forall i: nat | i < 4 ensures FollowsAt(RegionCEntry, i, 14) { RegionCFollows(i); }
        AllFollow(4, RegionCEntry, 14);
      case Entropie1 =>
        forall i: nat | i < 3 ensures FollowsAt(Entropie1Entry, i, 8) { Entropie1Follows(i); }
        AllFollow(3, Entropie1Entry, 8);
      case Entropie2 =>
        forall i: nat | i < 5 ensures FollowsAt(Entropie2Entry, i, 8) { Entropie2Follows(i); }
        AllFollow(5, Entropie2Entry, 8);
      case Entropie3 =>
        forall i: nat | i < 7 ensures FollowsAt(Entropie3Entry, i, 8) { Entropie3Follows(i); }
        AllFollow(7, Entropie3Entry, 8);
      case Entropie4 =>
        forall i: nat | i < 9 ensures FollowsAt(Entropie4Entry, i, 8) { Entropie4Follows(i); }
        AllFollow(9, Entropie4Entry, 8);
      case Entropie5 =>
        forall i: nat | i < 15 ensures FollowsAt(Entropie5Entry, i, 8) { Entropie5Follows(i); }
        AllFollow(15, Entropie5Entry, 8);
      case Entropie6 =>
        forall i: nat | i < 31 ensures FollowsAt(Entropie6Entry, i, 8) { Entropie6Follows(i); }
        AllFollow(31, Entropie6Entry, 8);
      case Entropie7 =>
        forall i: nat | i < 63 ensures FollowsAt(Entropie7Entry, i, 8) { Entropie7Follows(i); }
        AllFollow(63, Entropie7Entry, 8);
    }
  }
}
