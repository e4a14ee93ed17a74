/** The constant lookup tables of the AES code.  A 256-byte table is sixteen rows of sixteen
    bytes, each row written as it stands in memory: the leftmost byte of a literal is at the
    lowest address.  A 1024-byte table holds 256 four-byte entries, sixteen to a `Rows`. */
module AesTables {

  /** Byte `k mod 16` of a row. */
  function Pick(row: bv128, k: bv8): bv8 {
    ((row >> (8 * (15 - (k & 15)))) & 0xff) as bv8
  }

  /** Four-byte entry `k mod 4` of a row. */
  function PickWord(row: bv128, k: bv8): bv32 {
    ((row >> (32 * (3 - (k & 3)))) & 0xffff_ffff) as bv32
  }

  datatype Rows = Rows(r0: bv128, r1: bv128, r2: bv128, r3: bv128)

  /** Four-byte entry `k mod 16` of four rows. */
  function PickEntry(rows: Rows, k: bv8): bv32 {
    PickWord(match (k >> 2) & 3 case 0 => rows.r0 case 1 => rows.r1 case 2 => rows.r2 case _ => rows.r3, k)
  }

  function SboxRow(h: bv8): bv128 {
    match h
    case 0 => 0x637c777bf26b6fc53001672bfed7ab76
    case 1 => 0xca82c97dfa5947f0add4a2af9ca472c0
    case 2 => 0xb7fd9326363ff7cc34a5e5f171d83115
    case 3 => 0x04c723c31896059a071280e2eb27b275
    case 4 => 0x09832c1a1b6e5aa0523bd6b329e32f84
    case 5 => 0x53d100ed20fcb15b6acbbe394a4c58cf
    case 6 => 0xd0efaafb434d338545f9027f503c9fa8
    case 7 => 0x51a3408f929d38f5bcb6da2110fff3d2
    case 8 => 0xcd0c13ec5f974417c4a77e3d645d1973
    case 9 => 0x60814fdc222a908846eeb814de5e0bdb
    case 10 => 0xe0323a0a4906245cc2d3ac629195e479
    case 11 => 0xe7c8376d8dd54ea96c56f4ea657aae08
    case 12 => 0xba78252e1ca6b4c6e8dd741f4bbd8b8a
    case 13 => 0x703eb5664803f60e613557b986c11d9e
    case 14 => 0xe1f8981169d98e949b1e87e9ce5528df
    case _ => 0x8ca1890dbfe6426841992d0fb054bb16
  }

  function InvSboxRow(h: bv8): bv128 {
    match h
    case 0 => 0x52096ad53036a538bf40a39e81f3d7fb
    case 1 => 0x7ce339829b2fff87348e4344c4dee9cb
    case 2 => 0x547b9432a6c2233dee4c950b42fac34e
    case 3 => 0x082ea16628d924b2765ba2496d8bd125
    case 4 => 0x72f8f66486689816d4a45ccc5d65b692
    case 5 => 0x6c704850fdedb9da5e154657a78d9d84
    case 6 => 0x90d8ab008cbcd30af7e45805b8b34506
    case 7 => 0xd02c1e8fca3f0f02c1afbd0301138a6b
    case 8 => 0x3a9111414f67dcea97f2cfcef0b4e673
    case 9 => 0x96ac7422e7ad3585e2f937e81c75df6e
    case 10 => 0x47f11a711d29c5896fb7620eaa18be1b
    case 11 => 0xfc563e4bc6d279209adbc0fe78cd5af4
    case 12 => 0x1fdda8338807c731b11210592780ec5f
    case 13 => 0x60517fa919b54a0d2de57a9f93c99cef
    case 14 => 0xa0e03b4dae2af5b0c8ebbb3c83539961
    case _ => 0x172b047eba77d626e169146355210c7d
  }

  function Xtime2SboxRow(h: bv8): bv128 {
    match h
    case 0 => 0xc6f8eef6ffd6de916002ce56e7b54dec
    case 1 => 0x8f1f89faefb28efb41b35f452353e49b
    case 2 => 0x75e13d4c6c7ef5836851d1f9e2ab622a
    case 3 => 0x0895469d30370a2f0e241bdfcd4e7fea
    case 4 => 0x121d583436dcb45ba476b77d52dd5e13
    case 5 => 0xa6b900c140e379b6d48d67729498b085
    case 6 => 0xbbc54fed869a66118ae904fea078254b
    case 7 => 0xa25d80053f2170f16377af4220e5fdbf
    case 8 => 0x811826c3be35882e9355fc7ac8ba32e6
    case 9 => 0xc0199ea344543b0b8cc76b28a7bc16ad
    case 10 => 0xdb647414920c48b89fbd43c43931d3f2
    case 11 => 0xd58b6eda01b19c49d8acf3cfcaf44710
    case 12 => 0x6ff04a5c38577397cba1e83e96610d0f
    case 13 => 0xe07c71cc9006f71cc26aae6917993a27
    case 14 => 0xd9eb2b22d2a907332d3c15c987aa50a5
    case _ => 0x0359091a65d784d082295a1e7ba86d2c
  }

  function Xtime3SboxRow(h: bv8): bv128 {
    match h
    case 0 => 0xa584998d0dbdb1545003a97d1962e69a
    case 1 => 0x459d408715ebc90bec67fdeabff7965b
    case 2 => 0xc21cae6a5a41024f5cf434089373533f
    case 3 => 0x0c52655e28a10fb509369b3d2669cd9f
    case 4 => 0x1b9e742e2db2eefbf64d61ce7b3e7197
    case 5 => 0xf568002c601fc8edbe46d94bded4e84a
    case 6 => 0x6b2ae516c5d75594cf100681f044bae3
    case 7 => 0xf3fec08aadbc4804dfc17563301a0e6d
    case 8 => 0x4c14352fe1a2cc3957f28247ace72b95
    case 9 => 0xa098d17f667eab83ca29d33c79e21d76
    case 10 => 0x3b564e1edb0a6ce45d6eefa6a8a4378b
    case 11 => 0x324359b78c64d2e0b4fa0725af8ee918
    case 12 => 0xd5886f7224f1c751237c9c21dddc8685
    case 13 => 0x9042c4aad8050112a35ff9d0915827b9
    case 14 => 0x3813b333bb7089a7b622922049ff787a
    case _ => 0x8ff88017da31c6b8c3b07711cbfcd63a
  }

  function Xtime9Row(h: bv8): bv128 {
    match h
    case 0 => 0x0009121b242d363f48415a536c657e77
    case 1 => 0x9099828bb4bda6afd8d1cac3fcf5eee7
    case 2 => 0x3b3229201f160d04737a6168575e454c
    case 3 => 0xaba2b9b08f869d94e3eaf1f8c7ced5dc
    case 4 => 0x767f646d525b40493e372c251a130801
    case 5 => 0xe6eff4fdc2cbd0d9aea7bcb58a839891
    case 6 => 0x4d445f5669607b72050c171e2128333a
    case 7 => 0xddd4cfc6f9f0ebe2959c878eb1b8a3aa
    case 8 => 0xece5fef7c8c1dad3a4adb6bf8089929b
    case 9 => 0x7c756e6758514a43343d262f1019020b
    case 10 => 0xd7dec5ccf3fae1e89f968d84bbb2a9a0
    case 11 => 0x474e555c636a71780f061d142b223930
    case 12 => 0x9a938881beb7aca5d2dbc0c9f6ffe4ed
    case 13 => 0x0a0318112e273c35424b5059666f747d
    case 14 => 0xa1a8b3ba858c979ee9e0fbf2cdc4dfd6
    case _ => 0x3138232a151c070e79706b625d544f46
  }

  function XtimeBRow(h: bv8): bv128 {
    match h
    case 0 => 0x000b161d2c273a3158534e45747f6269
    case 1 => 0xb0bba6ad9c978a81e8e3fef5c4cfd2d9
    case 2 => 0x7b706d66575c414a2328353e0f041912
    case 3 => 0xcbc0ddd6e7ecf1fa9398858ebfb4a9a2
    case 4 => 0xf6fde0ebdad1ccc7aea5b8b38289949f
    case 5 => 0x464d505b6a617c771e1508033239242f
    case 6 => 0x8d869b90a1aab7bcd5dec3c8f9f2efe4
    case 7 => 0x3d362b20111a070c656e737849425f54
    case 8 => 0xf7fce1eadbd0cdc6afa4b9b28388959e
    case 9 => 0x474c515a6b607d761f1409023338252e
    case 10 => 0x8c879a91a0abb6bdd4dfc2c9f8f3eee5
    case 11 => 0x3c372a21101b060d646f727948435e55
    case 12 => 0x010a171c2d263b3059524f44757e6368
    case 13 => 0xb1baa7ac9d968b80e9e2fff4c5ced3d8
    case 14 => 0x7a716c67565d404b2229343f0e051813
    case _ => 0xcac1dcd7e6edf0fb9299848fbeb5a8a3
  }

  function XtimeDRow(h: bv8): bv128 {
    match h
    case 0 => 0x000d1a1734392e236865727f5c51464b
    case 1 => 0xd0ddcac7e4e9fef3b8b5a2af8c81969b
    case 2 => 0xbbb6a1ac8f829598d3dec9c4e7eafdf0
    case 3 => 0x6b66717c5f524548030e1914373a2d20
    case 4 => 0x6d60777a5954434e05081f12313c2b26
    case 5 => 0xbdb0a7aa8984939ed5d8cfc2e1ecfbf6
    case 6 => 0xd6dbccc1e2eff8f5beb3a4a98a87909d
    case 7 => 0x060b1c11323f28256e6374795a57404d
    case 8 => 0xdad7c0cdeee3f4f9b2bfa8a5868b9c91
    case 9 => 0x0a07101d3e332429626f7875565b4c41
    case 10 => 0x616c7b7655584f420904131e3d30272a
    case 11 => 0xb1bcaba685889f92d9d4c3ceede0f7fa
    case 12 => 0xb7baada0838e9994dfd2c5c8ebe6f1fc
    case 13 => 0x676a7d70535e49440f0215183b36212c
    case 14 => 0x0c01161b3835222f64697e73505d4a47
    case _ => 0xdcd1c6cbe8e5f2ffb4b9aea3808d9a97
  }

  function XtimeERow(h: bv8): bv128 {
    match h
    case 0 => 0x000e1c123836242a707e6c624846545a
    case 1 => 0xe0eefcf2d8d6c4ca909e8c82a8a6b4ba
    case 2 => 0xdbd5c7c9e3edfff1aba5b7b9939d8f81
    case 3 => 0x3b352729030d1f114b455759737d6f61
    case 4 => 0xada3b1bf959b8987ddd3c1cfe5ebf9f7
    case 5 => 0x4d43515f757b69673d33212f050b1917
    case 6 => 0x76786a644e40525c06081a143e30222c
    case 7 => 0x96988a84aea0b2bce6e8faf4ded0c2cc
    case 8 => 0x414f5d537977656b313f2d230907151b
    case 9 => 0xa1afbdb39997858bd1dfcdc3e9e7f5fb
    case 10 => 0x9a948688a2acbeb0eae4f6f8d2dccec0
    case 11 => 0x7a746668424c5e500a041618323c2e20
    case 12 => 0xece2f0fed4dac8c69c92808ea4aab8b6
    case 13 => 0x0c02101e343a28267c72606e444a5856
    case 14 => 0x37392b250f01131d47495b557f71636d
    case _ => 0xd7d9cbc5efe1f3fda7a9bbb59f91838d
  }

  function TRows0(h: bv8): Rows {
    match h
    case 0 => Rows(0xc66363a5_f87c7c84_ee777799_f67b7b8d, 0xfff2f20d_d66b6bbd_de6f6fb1_91c5c554,
                   0x60303050_02010103_ce6767a9_562b2b7d, 0xe7fefe19_b5d7d762_4dababe6_ec76769a)
    case 1 => Rows(0x8fcaca45_1f82829d_89c9c940_fa7d7d87, 0xeffafa15_b25959eb_8e4747c9_fbf0f00b,
                   0x41adadec_b3d4d467_5fa2a2fd_45afafea, 0x239c9cbf_53a4a4f7_e4727296_9bc0c05b)
    case 2 => Rows(0x75b7b7c2_e1fdfd1c_3d9393ae_4c26266a, 0x6c36365a_7e3f3f41_f5f7f702_83cccc4f,
                   0x6834345c_51a5a5f4_d1e5e534_f9f1f108, 0xe2717193_abd8d873_62313153_2a15153f)
    case 3 => Rows(0x0804040c_95c7c752_46232365_9dc3c35e, 0x30181828_379696a1_0a05050f_2f9a9ab5,
                   0x0e070709_24121236_1b80809b_dfe2e23d, 0xcdebeb26_4e272769_7fb2b2cd_ea75759f)
    case 4 => Rows(0x1209091b_1d83839e_582c2c74_341a1a2e, 0x361b1b2d_dc6e6eb2_b45a5aee_5ba0a0fb,
                   0xa45252f6_763b3b4d_b7d6d661_7db3b3ce, 0x5229297b_dde3e33e_5e2f2f71_13848497)
    case 5 => Rows(0xa65353f5_b9d1d168_00000000_c1eded2c, 0x40202060_e3fcfc1f_79b1b1c8_b65b5bed,
                   0xd46a6abe_8dcbcb46_67bebed9_7239394b, 0x944a4ade_984c4cd4_b05858e8_85cfcf4a)
    case 6 => Rows(0xbbd0d06b_c5efef2a_4faaaae5_edfbfb16, 0x864343c5_9a4d4dd7_66333355_11858594,
                   0x8a4545cf_e9f9f910_04020206_fe7f7f81, 0xa05050f0_783c3c44_259f9fba_4ba8a8e3)
    case 7 => Rows(0xa25151f3_5da3a3fe_804040c0_058f8f8a, 0x3f9292ad_219d9dbc_70383848_f1f5f504,
                   0x63bcbcdf_77b6b6c1_afdada75_42212163, 0x20101030_e5ffff1a_fdf3f30e_bfd2d26d)
    case 8 => Rows(0x81cdcd4c_180c0c14_26131335_c3ecec2f, 0xbe5f5fe1_359797a2_884444cc_2e171739,
                   0x93c4c457_55a7a7f2_fc7e7e82_7a3d3d47, 0xc86464ac_ba5d5de7_3219192b_e6737395)
    case 9 => Rows(0xc06060a0_19818198_9e4f4fd1_a3dcdc7f, 0x44222266_542a2a7e_3b9090ab_0b888883,
                   0x8c4646ca_c7eeee29_6bb8b8d3_2814143c, 0xa7dede79_bc5e5ee2_160b0b1d_addbdb76)
    case 10 => Rows(0xdbe0e03b_64323256_743a3a4e_140a0a1e, 0x924949db_0c06060a_4824246c_b85c5ce4,
                   0x9fc2c25d_bdd3d36e_43acacef_c46262a6, 0x399191a8_319595a4_d3e4e437_f279798b)
    case 11 => Rows(0xd5e7e732_8bc8c843_6e373759_da6d6db7, 0x018d8d8c_b1d5d564_9c4e4ed2_49a9a9e0,
                   0xd86c6cb4_ac5656fa_f3f4f407_cfeaea25, 0xca6565af_f47a7a8e_47aeaee9_10080818)
    case 12 => Rows(0x6fbabad5_f0787888_4a25256f_5c2e2e72, 0x381c1c24_57a6a6f1_73b4b4c7_97c6c651,
                   0xcbe8e823_a1dddd7c_e874749c_3e1f1f21, 0x964b4bdd_61bdbddc_0d8b8b86_0f8a8a85)
    case 13 => Rows(0xe0707090_7c3e3e42_71b5b5c4_cc6666aa, 0x904848d8_06030305_f7f6f601_1c0e0e12,
                   0xc26161a3_6a35355f_ae5757f9_69b9b9d0, 0x17868691_99c1c158_3a1d1d27_279e9eb9)
    case 14 => Rows(0xd9e1e138_ebf8f813_2b9898b3_22111133, 0xd26969bb_a9d9d970_078e8e89_339494a7,
                   0x2d9b9bb6_3c1e1e22_15878792_c9e9e920, 0x87cece49_aa5555ff_50282878_a5dfdf7a)
    case _ => Rows(0x038c8c8f_59a1a1f8_09898980_1a0d0d17, 0x65bfbfda_d7e6e631_844242c6_d06868b8,
                   0x824141c3_299999b0_5a2d2d77_1e0f0f11, 0x7bb0b0cb_a85454fc_6dbbbbd6_2c16163a)
  }

  function TRows1(h: bv8): Rows {
    match h
    case 0 => Rows(0xa5c66363_84f87c7c_99ee7777_8df67b7b, 0x0dfff2f2_bdd66b6b_b1de6f6f_5491c5c5,
                   0x50603030_03020101_a9ce6767_7d562b2b, 0x19e7fefe_62b5d7d7_e64dabab_9aec7676)
    case 1 => Rows(0x458fcaca_9d1f8282_4089c9c9_87fa7d7d, 0x15effafa_ebb25959_c98e4747_0bfbf0f0,
                   0xec41adad_67b3d4d4_fd5fa2a2_ea45afaf, 0xbf239c9c_f753a4a4_96e47272_5b9bc0c0)
    case 2 => Rows(0xc275b7b7_1ce1fdfd_ae3d9393_6a4c2626, 0x5a6c3636_417e3f3f_02f5f7f7_4f83cccc,
                   0x5c683434_f451a5a5_34d1e5e5_08f9f1f1, 0x93e27171_73abd8d8_53623131_3f2a1515)
    case 3 => Rows(0x0c080404_5295c7c7_65462323_5e9dc3c3, 0x28301818_a1379696_0f0a0505_b52f9a9a,
                   0x090e0707_36241212_9b1b8080_3ddfe2e2, 0x26cdebeb_694e2727_cd7fb2b2_9fea7575)
    case 4 => Rows(0x1b120909_9e1d8383_74582c2c_2e341a1a, 0x2d361b1b_b2dc6e6e_eeb45a5a_fb5ba0a0,
                   0xf6a45252_4d763b3b_61b7d6d6_ce7db3b3, 0x7b522929_3edde3e3_715e2f2f_97138484)
    case 5 => Rows(0xf5a65353_68b9d1d1_00000000_2cc1eded, 0x60402020_1fe3fcfc_c879b1b1_edb65b5b,
                   0xbed46a6a_468dcbcb_d967bebe_4b723939, 0xde944a4a_d4984c4c_e8b05858_4a85cfcf)
    case 6 => Rows(0x6bbbd0d0_2ac5efef_e54faaaa_16edfbfb, 0xc5864343_d79a4d4d_55663333_94118585,
                   0xcf8a4545_10e9f9f9_06040202_81fe7f7f, 0xf0a05050_44783c3c_ba259f9f_e34ba8a8)
    case 7 => Rows(0xf3a25151_fe5da3a3_c0804040_8a058f8f, 0xad3f9292_bc219d9d_48703838_04f1f5f5,
                   0xdf63bcbc_c177b6b6_75afdada_63422121, 0x30201010_1ae5ffff_0efdf3f3_6dbfd2d2)
    case 8 => Rows(0x4c81cdcd_14180c0c_35261313_2fc3ecec, 0xe1be5f5f_a2359797_cc884444_392e1717,
                   0x5793c4c4_f255a7a7_82fc7e7e_477a3d3d, 0xacc86464_e7ba5d5d_2b321919_95e67373)
    case 9 => Rows(0xa0c06060_98198181_d19e4f4f_7fa3dcdc, 0x66442222_7e542a2a_ab3b9090_830b8888,
                   0xca8c4646_29c7eeee_d36bb8b8_3c281414, 0x79a7dede_e2bc5e5e_1d160b0b_76addbdb)
    case 10 => Rows(0x3bdbe0e0_56643232_4e743a3a_1e140a0a, 0xdb924949_0a0c0606_6c482424_e4b85c5c,
                   0x5d9fc2c2_6ebdd3d3_ef43acac_a6c46262, 0xa8399191_a4319595_37d3e4e4_8bf27979)
    case 11 => Rows(0x32d5e7e7_438bc8c8_596e3737_b7da6d6d, 0x8c018d8d_64b1d5d5_d29c4e4e_e049a9a9,
                   0xb4d86c6c_faac5656_07f3f4f4_25cfeaea, 0xafca6565_8ef47a7a_e947aeae_18100808)
    case 12 => Rows(0xd56fbaba_88f07878_6f4a2525_725c2e2e, 0x24381c1c_f157a6a6_c773b4b4_5197c6c6,
                   0x23cbe8e8_7ca1dddd_9ce87474_213e1f1f, 0xdd964b4b_dc61bdbd_860d8b8b_850f8a8a)
    case 13 => Rows(0x90e07070_427c3e3e_c471b5b5_aacc6666, 0xd8904848_05060303_01f7f6f6_121c0e0e,
                   0xa3c26161_5f6a3535_f9ae5757_d069b9b9, 0x91178686_5899c1c1_273a1d1d_b9279e9e)
    case 14 => Rows(0x38d9e1e1_13ebf8f8_b32b9898_33221111, 0xbbd26969_70a9d9d9_89078e8e_a7339494,
                   0xb62d9b9b_223c1e1e_92158787_20c9e9e9, 0x4987cece_ffaa5555_78502828_7aa5dfdf)
    case _ => Rows(0x8f038c8c_f859a1a1_80098989_171a0d0d, 0xda65bfbf_31d7e6e6_c6844242_b8d06868,
                   0xc3824141_b0299999_775a2d2d_111e0f0f, 0xcb7bb0b0_fca85454_d66dbbbb_3a2c1616)
  }

  function TRows2(h: bv8): Rows {
    match h
    case 0 => Rows(0x63a5c663_7c84f87c_7799ee77_7b8df67b, 0xf20dfff2_6bbdd66b_6fb1de6f_c55491c5,
                   0x30506030_01030201_67a9ce67_2b7d562b, 0xfe19e7fe_d762b5d7_abe64dab_769aec76)
    case 1 => Rows(0xca458fca_829d1f82_c94089c9_7d87fa7d, 0xfa15effa_59ebb259_47c98e47_f00bfbf0,
                   0xadec41ad_d467b3d4_a2fd5fa2_afea45af, 0x9cbf239c_a4f753a4_7296e472_c05b9bc0)
    case 2 => Rows(0xb7c275b7_fd1ce1fd_93ae3d93_266a4c26, 0x365a6c36_3f417e3f_f702f5f7_cc4f83cc,
                   0x345c6834_a5f451a5_e534d1e5_f108f9f1, 0x7193e271_d873abd8_31536231_153f2a15)
    case 3 => Rows(0x040c0804_c75295c7_23654623_c35e9dc3, 0x18283018_96a13796_050f0a05_9ab52f9a,
                   0x07090e07_12362412_809b1b80_e23ddfe2, 0xeb26cdeb_27694e27_b2cd7fb2_759fea75)
    case 4 => Rows(0x091b1209_839e1d83_2c74582c_1a2e341a, 0x1b2d361b_6eb2dc6e_5aeeb45a_a0fb5ba0,
                   0x52f6a452_3b4d763b_d661b7d6_b3ce7db3, 0x297b5229_e33edde3_2f715e2f_84971384)
    case 5 => Rows(0x53f5a653_d168b9d1_00000000_ed2cc1ed, 0x20604020_fc1fe3fc_b1c879b1_5bedb65b,
                   0x6abed46a_cb468dcb_bed967be_394b7239, 0x4ade944a_4cd4984c_58e8b058_cf4a85cf)
    case 6 => Rows(0xd06bbbd0_ef2ac5ef_aae54faa_fb16edfb, 0x43c58643_4dd79a4d_33556633_85941185,
                   0x45cf8a45_f910e9f9_02060402_7f81fe7f, 0x50f0a050_3c44783c_9fba259f_a8e34ba8)
    case 7 => Rows(0x51f3a251_a3fe5da3_40c08040_8f8a058f, 0x92ad3f92_9dbc219d_38487038_f504f1f5,
                   0xbcdf63bc_b6c177b6_da75afda_21634221, 0x10302010_ff1ae5ff_f30efdf3_d26dbfd2)
    case 8 => Rows(0xcd4c81cd_0c14180c_13352613_ec2fc3ec, 0x5fe1be5f_97a23597_44cc8844_17392e17,
                   0xc45793c4_a7f255a7_7e82fc7e_3d477a3d, 0x64acc864_5de7ba5d_192b3219_7395e673)
    case 9 => Rows(0x60a0c060_81981981_4fd19e4f_dc7fa3dc, 0x22664422_2a7e542a_90ab3b90_88830b88,
                   0x46ca8c46_ee29c7ee_b8d36bb8_143c2814, 0xde79a7de_5ee2bc5e_0b1d160b_db76addb)
    case 10 => Rows(0xe03bdbe0_32566432_3a4e743a_0a1e140a, 0x49db9249_060a0c06_246c4824_5ce4b85c,
                   0xc25d9fc2_d36ebdd3_acef43ac_62a6c462, 0x91a83991_95a43195_e437d3e4_798bf279)
    case 11 => Rows(0xe732d5e7_c8438bc8_37596e37_6db7da6d, 0x8d8c018d_d564b1d5_4ed29c4e_a9e049a9,
                   0x6cb4d86c_56faac56_f407f3f4_ea25cfea, 0x65afca65_7a8ef47a_aee947ae_08181008)
    case 12 => Rows(0xbad56fba_7888f078_256f4a25_2e725c2e, 0x1c24381c_a6f157a6_b4c773b4_c65197c6,
                   0xe823cbe8_dd7ca1dd_749ce874_1f213e1f, 0x4bdd964b_bddc61bd_8b860d8b_8a850f8a)
    case 13 => Rows(0x7090e070_3e427c3e_b5c471b5_66aacc66, 0x48d89048_03050603_f601f7f6_0e121c0e,
                   0x61a3c261_355f6a35_57f9ae57_b9d069b9, 0x86911786_c15899c1_1d273a1d_9eb9279e)
    case 14 => Rows(0xe138d9e1_f813ebf8_98b32b98_11332211, 0x69bbd269_d970a9d9_8e89078e_94a73394,
                   0x9bb62d9b_1e223c1e_87921587_e920c9e9, 0xce4987ce_55ffaa55_28785028_df7aa5df)
    case _ => Rows(0x8c8f038c_a1f859a1_89800989_0d171a0d, 0xbfda65bf_e631d7e6_42c68442_68b8d068,
                   0x41c38241_99b02999_2d775a2d_0f111e0f, 0xb0cb7bb0_54fca854_bbd66dbb_163a2c16)
  }

  function TRows3(h: bv8): Rows {
    match h
    case 0 => Rows(0x6363a5c6_7c7c84f8_777799ee_7b7b8df6, 0xf2f20dff_6b6bbdd6_6f6fb1de_c5c55491,
                   0x30305060_01010302_6767a9ce_2b2b7d56, 0xfefe19e7_d7d762b5_ababe64d_76769aec)
    case 1 => Rows(0xcaca458f_82829d1f_c9c94089_7d7d87fa, 0xfafa15ef_5959ebb2_4747c98e_f0f00bfb,
                   0xadadec41_d4d467b3_a2a2fd5f_afafea45, 0x9c9cbf23_a4a4f753_727296e4_c0c05b9b)
    case 2 => Rows(0xb7b7c275_fdfd1ce1_9393ae3d_26266a4c, 0x36365a6c_3f3f417e_f7f702f5_cccc4f83,
                   0x34345c68_a5a5f451_e5e534d1_f1f108f9, 0x717193e2_d8d873ab_31315362_15153f2a)
    case 3 => Rows(0x04040c08_c7c75295_23236546_c3c35e9d, 0x18182830_9696a137_05050f0a_9a9ab52f,
                   0x0707090e_12123624_80809b1b_e2e23ddf, 0xebeb26cd_2727694e_b2b2cd7f_75759fea)
    case 4 => Rows(0x09091b12_83839e1d_2c2c7458_1a1a2e34, 0x1b1b2d36_6e6eb2dc_5a5aeeb4_a0a0fb5b,
                   0x5252f6a4_3b3b4d76_d6d661b7_b3b3ce7d, 0x29297b52_e3e33edd_2f2f715e_84849713)
    case 5 => Rows(0x5353f5a6_d1d168b9_00000000_eded2cc1, 0x20206040_fcfc1fe3_b1b1c879_5b5bedb6,
                   0x6a6abed4_cbcb468d_bebed967_39394b72, 0x4a4ade94_4c4cd498_5858e8b0_cfcf4a85)
    case 6 => Rows(0xd0d06bbb_efef2ac5_aaaae54f_fbfb16ed, 0x4343c586_4d4dd79a_33335566_85859411,
                   0x4545cf8a_f9f910e9_02020604_7f7f81fe, 0x5050f0a0_3c3c4478_9f9fba25_a8a8e34b)
    case 7 => Rows(0x5151f3a2_a3a3fe5d_4040c080_8f8f8a05, 0x9292ad3f_9d9dbc21_38384870_f5f504f1,
                   0xbcbcdf63_b6b6c177_dada75af_21216342, 0x10103020_ffff1ae5_f3f30efd_d2d26dbf)
    case 8 => Rows(0xcdcd4c81_0c0c1418_13133526_ecec2fc3, 0x5f5fe1be_9797a235_4444cc88_1717392e,
                   0xc4c45793_a7a7f255_7e7e82fc_3d3d477a, 0x6464acc8_5d5de7ba_19192b32_737395e6)
    case 9 => Rows(0x6060a0c0_81819819_4f4fd19e_dcdc7fa3, 0x22226644_2a2a7e54_9090ab3b_8888830b,
                   0x4646ca8c_eeee29c7_b8b8d36b_14143c28, 0xdede79a7_5e5ee2bc_0b0b1d16_dbdb76ad)
    case 10 => Rows(0xe0e03bdb_32325664_3a3a4e74_0a0a1e14, 0x4949db92_06060a0c_24246c48_5c5ce4b8,
                   0xc2c25d9f_d3d36ebd_acacef43_6262a6c4, 0x9191a839_9595a431_e4e437d3_79798bf2)
    case 11 => Rows(0xe7e732d5_c8c8438b_3737596e_6d6db7da, 0x8d8d8c01_d5d564b1_4e4ed29c_a9a9e049,
                   0x6c6cb4d8_5656faac_f4f407f3_eaea25cf, 0x6565afca_7a7a8ef4_aeaee947_08081810)
    case 12 => Rows(0xbabad56f_787888f0_25256f4a_2e2e725c, 0x1c1c2438_a6a6f157_b4b4c773_c6c65197,
                   0xe8e823cb_dddd7ca1_74749ce8_1f1f213e, 0x4b4bdd96_bdbddc61_8b8b860d_8a8a850f)
    case 13 => Rows(0x707090e0_3e3e427c_b5b5c471_6666aacc, 0x4848d890_03030506_f6f601f7_0e0e121c,
                   0x6161a3c2_35355f6a_5757f9ae_b9b9d069, 0x86869117_c1c15899_1d1d273a_9e9eb927)
    case 14 => Rows(0xe1e138d9_f8f813eb_9898b32b_11113322, 0x6969bbd2_d9d970a9_8e8e8907_9494a733,
                   0x9b9bb62d_1e1e223c_87879215_e9e920c9, 0xcece4987_5555ffaa_28287850_dfdf7aa5)
    case _ => Rows(0x8c8c8f03_a1a1f859_89898009_0d0d171a, 0xbfbfda65_e6e631d7_4242c684_6868b8d0,
                   0x4141c382_9999b029_2d2d775a_0f0f111e, 0xb0b0cb7b_5454fca8_bbbbd66d_16163a2c)
  }

  function Sbox(x: bv8): bv8 { Pick(SboxRow(x >> 4), x) }
  function InvSbox(x: bv8): bv8 { Pick(InvSboxRow(x >> 4), x) }
  function Xtime2Sbox(x: bv8): bv8 { Pick(Xtime2SboxRow(x >> 4), x) }
  function Xtime3Sbox(x: bv8): bv8 { Pick(Xtime3SboxRow(x >> 4), x) }
  function Xtime9(x: bv8): bv8 { Pick(Xtime9Row(x >> 4), x) }
  function XtimeB(x: bv8): bv8 { Pick(XtimeBRow(x >> 4), x) }
  function XtimeD(x: bv8): bv8 { Pick(XtimeDRow(x >> 4), x) }
  function XtimeE(x: bv8): bv8 { Pick(XtimeERow(x >> 4), x) }

  function SBox0(x: bv8): bv32 { PickEntry(TRows0(x >> 4), x) }
  function SBox1(x: bv8): bv32 { PickEntry(TRows1(x >> 4), x) }
  function SBox2(x: bv8): bv32 { PickEntry(TRows2(x >> 4), x) }
  function SBox3(x: bv8): bv32 { PickEntry(TRows3(x >> 4), x) }
}
