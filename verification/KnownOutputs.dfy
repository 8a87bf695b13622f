/**
Outputs of MT19937-64 that are published with it, for the default seed 5489 (the one src/theft_rng.c falls back to).
*/
module KnownOutputs {
  import opened Rng

  const SEED: bv64 := 5489

  /** The word that seeding puts after a known one. */
  lemma NextWord(n: nat, word: bv64)
    requires State(SEED, n) == word && n + 1 < NN
    ensures State(SEED, n + 1) == SeedStep(word, n + 1)
  {
    hide SeedStep, Twist;
  }

  lemma FirstWord()
    ensures State(SEED, 0) == 5489
  {
  }

  lemma Words1To6()
    ensures State(SEED, 6) == 0x97392E1FB95D724
    ensures State(SEED, 1) == 0xB5347F47116BD3DE
    ensures State(SEED, 2) == 0x9165B5762D1A61AE
    ensures State(SEED, 3) == 0xD139B6BBED337F3F
  {
    hide State;
    FirstWord();
    NextWord(0, 0x1571);
    assert SeedStep(0x1571, 1) == 0xB5347F47116BD3DE;
    NextWord(1, 0xB5347F47116BD3DE);
    assert SeedStep(0xB5347F47116BD3DE, 2) == 0x9165B5762D1A61AE;
    NextWord(2, 0x9165B5762D1A61AE);
    assert SeedStep(0x9165B5762D1A61AE, 3) == 0xD139B6BBED337F3F;
    NextWord(3, 0xD139B6BBED337F3F);
    assert SeedStep(0xD139B6BBED337F3F, 4) == 0x37E740001C182190;
    NextWord(4, 0x37E740001C182190);
    assert SeedStep(0x37E740001C182190, 5) == 0xE398F84731B45655;
    NextWord(5, 0xE398F84731B45655);
    assert SeedStep(0xE398F84731B45655, 6) == 0x97392E1FB95D724;
  }

  lemma Words7To12()
    requires State(SEED, 6) == 0x97392E1FB95D724
    ensures State(SEED, 12) == 0xFA4F68BAD1844133
  {
    hide State;
    NextWord(6, 0x97392E1FB95D724);
    assert SeedStep(0x97392E1FB95D724, 7) == 0x102FF8F17705AD5B;
    NextWord(7, 0x102FF8F17705AD5B);
    assert SeedStep(0x102FF8F17705AD5B, 8) == 0xAFD3B741A6F69E07;
    NextWord(8, 0xAFD3B741A6F69E07);
    assert SeedStep(0xAFD3B741A6F69E07, 9) == 0x3673B7B326A741EA;
    NextWord(9, 0x3673B7B326A741EA);
    assert SeedStep(0x3673B7B326A741EA, 10) == 0x967BEFB79A4BAC2C;
    NextWord(10, 0x967BEFB79A4BAC2C);
    assert SeedStep(0x967BEFB79A4BAC2C, 11) == 0x81579A10887E1621;
    NextWord(11, 0x81579A10887E1621);
    assert SeedStep(0x81579A10887E1621, 12) == 0xFA4F68BAD1844133;
  }

  lemma Words13To18()
    requires State(SEED, 12) == 0xFA4F68BAD1844133
    ensures State(SEED, 18) == 0xE8B0B2F1595553B8
  {
    hide State;
    NextWord(12, 0xFA4F68BAD1844133);
    assert SeedStep(0xFA4F68BAD1844133, 13) == 0xD26A818BA186457D;
    NextWord(13, 0xD26A818BA186457D);
    assert SeedStep(0xD26A818BA186457D, 14) == 0x58EA399ADB69B934;
    NextWord(14, 0x58EA399ADB69B934);
    assert SeedStep(0x58EA399ADB69B934, 15) == 0x7BE61CE78C4FD960;
    NextWord(15, 0x7BE61CE78C4FD960);
    assert SeedStep(0x7BE61CE78C4FD960, 16) == 0x6520FC5E9855551D;
    NextWord(16, 0x6520FC5E9855551D);
    assert SeedStep(0x6520FC5E9855551D, 17) == 0xC641EF0DF584D9FD;
    NextWord(17, 0xC641EF0DF584D9FD);
    assert SeedStep(0xC641EF0DF584D9FD, 18) == 0xE8B0B2F1595553B8;
  }

  lemma Words19To24()
    requires State(SEED, 18) == 0xE8B0B2F1595553B8
    ensures State(SEED, 24) == 0xA47F692D8D65996A
  {
    hide State;
    NextWord(18, 0xE8B0B2F1595553B8);
    assert SeedStep(0xE8B0B2F1595553B8, 19) == 0x2ACC772248607CF2;
    NextWord(19, 0x2ACC772248607CF2);
    assert SeedStep(0x2ACC772248607CF2, 20) == 0xE21A56B927CC049E;
    NextWord(20, 0xE21A56B927CC049E);
    assert SeedStep(0xE21A56B927CC049E, 21) == 0x222B48008087B2AE;
    NextWord(21, 0x222B48008087B2AE);
    assert SeedStep(0x222B48008087B2AE, 22) == 0xCFFD407690C4BAAC;
    NextWord(22, 0xCFFD407690C4BAAC);
    assert SeedStep(0xCFFD407690C4BAAC, 23) == 0x185E6D58A70CA1DA;
    NextWord(23, 0x185E6D58A70CA1DA);
    assert SeedStep(0x185E6D58A70CA1DA, 24) == 0xA47F692D8D65996A;
  }

  lemma Words25To30()
    requires State(SEED, 24) == 0xA47F692D8D65996A
    ensures State(SEED, 30) == 0xA20C5CE2D836B014
  {
    hide State;
    NextWord(24, 0xA47F692D8D65996A);
    assert SeedStep(0xA47F692D8D65996A, 25) == 0xD80BA31C6B7E8F61;
    NextWord(25, 0xD80BA31C6B7E8F61);
    assert SeedStep(0xD80BA31C6B7E8F61, 26) == 0xB35584C73A6AD254;
    NextWord(26, 0xB35584C73A6AD254);
    assert SeedStep(0xB35584C73A6AD254, 27) == 0x92AAD4BC372DA339;
    NextWord(27, 0x92AAD4BC372DA339);
    assert SeedStep(0x92AAD4BC372DA339, 28) == 0x59C35BD9DC56F67B;
    NextWord(28, 0x59C35BD9DC56F67B);
    assert SeedStep(0x59C35BD9DC56F67B, 29) == 0x5FEEE4D68C91D98F;
    NextWord(29, 0x5FEEE4D68C91D98F);
    assert SeedStep(0x5FEEE4D68C91D98F, 30) == 0xA20C5CE2D836B014;
  }

  lemma Words31To36()
    requires State(SEED, 30) == 0xA20C5CE2D836B014
    ensures State(SEED, 36) == 0x39559F108AAB7DC
  {
    hide State;
    NextWord(30, 0xA20C5CE2D836B014);
    assert SeedStep(0xA20C5CE2D836B014, 31) == 0x6EE0DD1C27C5DDFD;
    NextWord(31, 0x6EE0DD1C27C5DDFD);
    assert SeedStep(0x6EE0DD1C27C5DDFD, 32) == 0x8A81EF0B2A94096C;
    NextWord(32, 0x8A81EF0B2A94096C);
    assert SeedStep(0x8A81EF0B2A94096C, 33) == 0xA161CA6211B93A77;
    NextWord(33, 0xA161CA6211B93A77);
    assert SeedStep(0xA161CA6211B93A77, 34) == 0x2A3A52C2C3A851B3;
    NextWord(34, 0x2A3A52C2C3A851B3);
    assert SeedStep(0x2A3A52C2C3A851B3, 35) == 0x8CD8FCFC964D299A;
    NextWord(35, 0x8CD8FCFC964D299A);
    assert SeedStep(0x8CD8FCFC964D299A, 36) == 0x39559F108AAB7DC;
  }

  lemma Words37To42()
    requires State(SEED, 36) == 0x39559F108AAB7DC
    ensures State(SEED, 42) == 0x14928B261D93E743
  {
    hide State;
    NextWord(36, 0x39559F108AAB7DC);
    assert SeedStep(0x39559F108AAB7DC, 37) == 0xAA981E498A4475D1;
    NextWord(37, 0xAA981E498A4475D1);
    assert SeedStep(0xAA981E498A4475D1, 38) == 0x47B66D6F7C4B633D;
    NextWord(38, 0x47B66D6F7C4B633D);
    assert SeedStep(0x47B66D6F7C4B633D, 39) == 0x9FF6E624D16735B3;
    NextWord(39, 0x9FF6E624D16735B3);
    assert SeedStep(0x9FF6E624D16735B3, 40) == 0x7F7D617ACECC3F45;
    NextWord(40, 0x7F7D617ACECC3F45);
    assert SeedStep(0x7F7D617ACECC3F45, 41) == 0x38FCFDCAAFDDDB1D;
    NextWord(41, 0x38FCFDCAAFDDDB1D);
    assert SeedStep(0x38FCFDCAAFDDDB1D, 42) == 0x14928B261D93E743;
  }

  lemma Words43To48()
    requires State(SEED, 42) == 0x14928B261D93E743
    ensures State(SEED, 48) == 0x2F775D6534BCC86
  {
    hide State;
    NextWord(42, 0x14928B261D93E743);
    assert SeedStep(0x14928B261D93E743, 43) == 0xFE6000E410B8E3F2;
    NextWord(43, 0xFE6000E410B8E3F2);
    assert SeedStep(0xFE6000E410B8E3F2, 44) == 0xB208B107E0D9A089;
    NextWord(44, 0xB208B107E0D9A089);
    assert SeedStep(0xB208B107E0D9A089, 45) == 0x82F135B131CD2D9C;
    NextWord(45, 0x82F135B131CD2D9C);
    assert SeedStep(0x82F135B131CD2D9C, 46) == 0x987DDA96FFA866F4;
    NextWord(46, 0x987DDA96FFA866F4);
    assert SeedStep(0x987DDA96FFA866F4, 47) == 0xE1EBB23270DC236D;
    NextWord(47, 0xE1EBB23270DC236D);
    assert SeedStep(0xE1EBB23270DC236D, 48) == 0x2F775D6534BCC86;
  }

  lemma Words49To54()
    requires State(SEED, 48) == 0x2F775D6534BCC86
    ensures State(SEED, 54) == 0x8ED13207E9471804
  {
    hide State;
    NextWord(48, 0x2F775D6534BCC86);
    assert SeedStep(0x2F775D6534BCC86, 49) == 0x2916B16310C76DBF;
    NextWord(49, 0x2916B16310C76DBF);
    assert SeedStep(0x2916B16310C76DBF, 50) == 0x8BB8A2F776AB0BC5;
    NextWord(50, 0x8BB8A2F776AB0BC5);
    assert SeedStep(0x8BB8A2F776AB0BC5, 51) == 0x7ED20066A5BBCB2E;
    NextWord(51, 0x7ED20066A5BBCB2E);
    assert SeedStep(0x7ED20066A5BBCB2E, 52) == 0xBF99B825822A0877;
    NextWord(52, 0xBF99B825822A0877);
    assert SeedStep(0xBF99B825822A0877, 53) == 0x175137B563AE87C6;
    NextWord(53, 0x175137B563AE87C6);
    assert SeedStep(0x175137B563AE87C6, 54) == 0x8ED13207E9471804;
  }

  lemma Words55To60()
    requires State(SEED, 54) == 0x8ED13207E9471804
    ensures State(SEED, 60) == 0x3E32761E6D7FA19A
  {
    hide State;
    NextWord(54, 0x8ED13207E9471804);
    assert SeedStep(0x8ED13207E9471804, 55) == 0xC8BE8AAF09E83345;
    NextWord(55, 0xC8BE8AAF09E83345);
    assert SeedStep(0xC8BE8AAF09E83345, 56) == 0xD6F2A55B8EFEBD86;
    NextWord(56, 0xD6F2A55B8EFEBD86);
    assert SeedStep(0xD6F2A55B8EFEBD86, 57) == 0x33EC6BF14D354B9A;
    NextWord(57, 0x33EC6BF14D354B9A);
    assert SeedStep(0x33EC6BF14D354B9A, 58) == 0x1AA08340BB81B04C;
    NextWord(58, 0x1AA08340BB81B04C);
    assert SeedStep(0x1AA08340BB81B04C, 59) == 0x658C3F94787DB197;
    NextWord(59, 0x658C3F94787DB197);
    assert SeedStep(0x658C3F94787DB197, 60) == 0x3E32761E6D7FA19A;
  }

  lemma Words61To66()
    requires State(SEED, 60) == 0x3E32761E6D7FA19A
    ensures State(SEED, 66) == 0xB99FD847F829903D
  {
    hide State;
    NextWord(60, 0x3E32761E6D7FA19A);
    assert SeedStep(0x3E32761E6D7FA19A, 61) == 0xB6DFAB00573CCE4F;
    NextWord(61, 0xB6DFAB00573CCE4F);
    assert SeedStep(0xB6DFAB00573CCE4F, 62) == 0xC4EDB5826ED976C7;
    NextWord(62, 0xC4EDB5826ED976C7);
    assert SeedStep(0xC4EDB5826ED976C7, 63) == 0x9E186133AE391CB3;
    NextWord(63, 0x9E186133AE391CB3);
    assert SeedStep(0x9E186133AE391CB3, 64) == 0xC8B2D463344ADA5D;
    NextWord(64, 0xC8B2D463344ADA5D);
    assert SeedStep(0xC8B2D463344ADA5D, 65) == 0x1182F4C543304C7;
    NextWord(65, 0x1182F4C543304C7);
    assert SeedStep(0x1182F4C543304C7, 66) == 0xB99FD847F829903D;
  }

  lemma Words67To72()
    requires State(SEED, 66) == 0xB99FD847F829903D
    ensures State(SEED, 72) == 0x6964FFBB3FAC2348
  {
    hide State;
    NextWord(66, 0xB99FD847F829903D);
    assert SeedStep(0xB99FD847F829903D, 67) == 0xB5ADE6D9E6889C56;
    NextWord(67, 0xB5ADE6D9E6889C56);
    assert SeedStep(0xB5ADE6D9E6889C56, 68) == 0x53F2F45B38752708;
    NextWord(68, 0x53F2F45B38752708);
    assert SeedStep(0x53F2F45B38752708, 69) == 0x9E6E49666F3253DA;
    NextWord(69, 0x9E6E49666F3253DA);
    assert SeedStep(0x9E6E49666F3253DA, 70) == 0xFC88FE527028E53E;
    NextWord(70, 0xFC88FE527028E53E);
    assert SeedStep(0xFC88FE527028E53E, 71) == 0xB8275B6896A8F00;
    NextWord(71, 0xB8275B6896A8F00);
    assert SeedStep(0xB8275B6896A8F00, 72) == 0x6964FFBB3FAC2348;
  }

  lemma Words73To78()
    requires State(SEED, 72) == 0x6964FFBB3FAC2348
    ensures State(SEED, 78) == 0x800B954BEFB3D899
  {
    hide State;
    NextWord(72, 0x6964FFBB3FAC2348);
    assert SeedStep(0x6964FFBB3FAC2348, 73) == 0x957EC9FFCC406B1E;
    NextWord(73, 0x957EC9FFCC406B1E);
    assert SeedStep(0x957EC9FFCC406B1E, 74) == 0x8149ED8183C1B836;
    NextWord(74, 0x8149ED8183C1B836);
    assert SeedStep(0x8149ED8183C1B836, 75) == 0xB6423B4E9B32D6F;
    NextWord(75, 0xB6423B4E9B32D6F);
    assert SeedStep(0xB6423B4E9B32D6F, 76) == 0x8FEA06065DA40DCF;
    NextWord(76, 0x8FEA06065DA40DCF);
    assert SeedStep(0x8FEA06065DA40DCF, 77) == 0x737C3D30BD002056;
    NextWord(77, 0x737C3D30BD002056);
    assert SeedStep(0x737C3D30BD002056, 78) == 0x800B954BEFB3D899;
  }

  lemma Words79To84()
    requires State(SEED, 78) == 0x800B954BEFB3D899
    ensures State(SEED, 84) == 0xCAC949203374B6D9
  {
    hide State;
    NextWord(78, 0x800B954BEFB3D899);
    assert SeedStep(0x800B954BEFB3D899, 79) == 0xF91A17D7148F88E;
    NextWord(79, 0xF91A17D7148F88E);
    assert SeedStep(0xF91A17D7148F88E, 80) == 0x23044078EFC82346;
    NextWord(80, 0x23044078EFC82346);
    assert SeedStep(0x23044078EFC82346, 81) == 0xD2413979BF6BED9F;
    NextWord(81, 0xD2413979BF6BED9F);
    assert SeedStep(0xD2413979BF6BED9F, 82) == 0x3C786924CCA528BE;
    NextWord(82, 0x3C786924CCA528BE);
    assert SeedStep(0x3C786924CCA528BE, 83) == 0x147B229D06D46BB9;
    NextWord(83, 0x147B229D06D46BB9);
    assert SeedStep(0x147B229D06D46BB9, 84) == 0xCAC949203374B6D9;
  }

  lemma Words85To90()
    requires State(SEED, 84) == 0xCAC949203374B6D9
    ensures State(SEED, 90) == 0x4BF32AC4EE54D4FB
  {
    hide State;
    NextWord(84, 0xCAC949203374B6D9);
    assert SeedStep(0xCAC949203374B6D9, 85) == 0xB47359B9171C4AA7;
    NextWord(85, 0xB47359B9171C4AA7);
    assert SeedStep(0xB47359B9171C4AA7, 86) == 0x7AB3D4A18709FA57;
    NextWord(86, 0x7AB3D4A18709FA57);
    assert SeedStep(0x7AB3D4A18709FA57, 87) == 0x82C40AA0EBFFAB75;
    NextWord(87, 0x82C40AA0EBFFAB75);
    assert SeedStep(0x82C40AA0EBFFAB75, 88) == 0x877A85FE72442D43;
    NextWord(88, 0x877A85FE72442D43);
    assert SeedStep(0x877A85FE72442D43, 89) == 0xDAB66FF48B4433C6;
    NextWord(89, 0xDAB66FF48B4433C6);
    assert SeedStep(0xDAB66FF48B4433C6, 90) == 0x4BF32AC4EE54D4FB;
  }

  lemma Words91To96()
    requires State(SEED, 90) == 0x4BF32AC4EE54D4FB
    ensures State(SEED, 96) == 0x19C09AAFAEC36123
  {
    hide State;
    NextWord(90, 0x4BF32AC4EE54D4FB);
    assert SeedStep(0x4BF32AC4EE54D4FB, 91) == 0x6A57D5662813764D;
    NextWord(91, 0x6A57D5662813764D);
    assert SeedStep(0x6A57D5662813764D, 92) == 0xF2E186A51D577FB8;
    NextWord(92, 0xF2E186A51D577FB8);
    assert SeedStep(0xF2E186A51D577FB8, 93) == 0x368B524C6C96393C;
    NextWord(93, 0x368B524C6C96393C);
    assert SeedStep(0x368B524C6C96393C, 94) == 0x4BFA6D46BCB8D3EA;
    NextWord(94, 0x4BFA6D46BCB8D3EA);
    assert SeedStep(0x4BFA6D46BCB8D3EA, 95) == 0x5D423FDAF965D5AE;
    NextWord(95, 0x5D423FDAF965D5AE);
    assert SeedStep(0x5D423FDAF965D5AE, 96) == 0x19C09AAFAEC36123;
  }

  lemma Words97To102()
    requires State(SEED, 96) == 0x19C09AAFAEC36123
    ensures State(SEED, 102) == 0x9AC91415E2442531
  {
    hide State;
    NextWord(96, 0x19C09AAFAEC36123);
    assert SeedStep(0x19C09AAFAEC36123, 97) == 0xF8BB804992E77088;
    NextWord(97, 0xF8BB804992E77088);
    assert SeedStep(0xF8BB804992E77088, 98) == 0xDF7875C686ABDD1;
    NextWord(98, 0xDF7875C686ABDD1);
    assert SeedStep(0xDF7875C686ABDD1, 99) == 0x7741AB42D5930D20;
    NextWord(99, 0x7741AB42D5930D20);
    assert SeedStep(0x7741AB42D5930D20, 100) == 0x429CFBFCEE91AE31;
    NextWord(100, 0x429CFBFCEE91AE31);
    assert SeedStep(0x429CFBFCEE91AE31, 101) == 0xBE763EC0D6F56ED5;
    NextWord(101, 0xBE763EC0D6F56ED5);
    assert SeedStep(0xBE763EC0D6F56ED5, 102) == 0x9AC91415E2442531;
  }

  lemma Words103To108()
    requires State(SEED, 102) == 0x9AC91415E2442531
    ensures State(SEED, 108) == 0x113C84A0F5ACE65F
  {
    hide State;
    NextWord(102, 0x9AC91415E2442531);
    assert SeedStep(0x9AC91415E2442531, 103) == 0x2CCA75C45F1DD75E;
    NextWord(103, 0x2CCA75C45F1DD75E);
    assert SeedStep(0x2CCA75C45F1DD75E, 104) == 0xC5CDCA88C7CC7DEE;
    NextWord(104, 0xC5CDCA88C7CC7DEE);
    assert SeedStep(0xC5CDCA88C7CC7DEE, 105) == 0xB0887B3A385BB612;
    NextWord(105, 0xB0887B3A385BB612);
    assert SeedStep(0xB0887B3A385BB612, 106) == 0x2B73D36F1EC0F13A;
    NextWord(106, 0x2B73D36F1EC0F13A);
    assert SeedStep(0x2B73D36F1EC0F13A, 107) == 0xB73E27E5BE582D9D;
    NextWord(107, 0xB73E27E5BE582D9D);
    assert SeedStep(0xB73E27E5BE582D9D, 108) == 0x113C84A0F5ACE65F;
  }

  lemma Words109To114()
    requires State(SEED, 108) == 0x113C84A0F5ACE65F
    ensures State(SEED, 114) == 0xAAB8206B6863CE29
  {
    hide State;
    NextWord(108, 0x113C84A0F5ACE65F);
    assert SeedStep(0x113C84A0F5ACE65F, 109) == 0x8F1386E53EF8A020;
    NextWord(109, 0x8F1386E53EF8A020);
    assert SeedStep(0x8F1386E53EF8A020, 110) == 0xCD9074C2B4EF0468;
    NextWord(110, 0xCD9074C2B4EF0468);
    assert SeedStep(0xCD9074C2B4EF0468, 111) == 0x5B702538B77BDC3E;
    NextWord(111, 0x5B702538B77BDC3E);
    assert SeedStep(0x5B702538B77BDC3E, 112) == 0xDC4A018B97B3F883;
    NextWord(112, 0xDC4A018B97B3F883);
    assert SeedStep(0xDC4A018B97B3F883, 113) == 0x9B0BEDD1956A2EF1;
    NextWord(113, 0x9B0BEDD1956A2EF1);
    assert SeedStep(0x9B0BEDD1956A2EF1, 114) == 0xAAB8206B6863CE29;
  }

  lemma Words115To120()
    requires State(SEED, 114) == 0xAAB8206B6863CE29
    ensures State(SEED, 120) == 0x8B1F37B4EDEDB9A3
  {
    hide State;
    NextWord(114, 0xAAB8206B6863CE29);
    assert SeedStep(0xAAB8206B6863CE29, 115) == 0x999B98859FD99302;
    NextWord(115, 0x999B98859FD99302);
    assert SeedStep(0x999B98859FD99302, 116) == 0x9E999210982BD774;
    NextWord(116, 0x9E999210982BD774);
    assert SeedStep(0x9E999210982BD774, 117) == 0x46B1D5A1EF466A33;
    NextWord(117, 0x46B1D5A1EF466A33);
    assert SeedStep(0x46B1D5A1EF466A33, 118) == 0x6F16177A5297940;
    NextWord(118, 0x6F16177A5297940);
    assert SeedStep(0x6F16177A5297940, 119) == 0x248F3E5A2DB110B7;
    NextWord(119, 0x248F3E5A2DB110B7);
    assert SeedStep(0x248F3E5A2DB110B7, 120) == 0x8B1F37B4EDEDB9A3;
  }

  lemma Words121To126()
    requires State(SEED, 120) == 0x8B1F37B4EDEDB9A3
    ensures State(SEED, 126) == 0xF57FDA3C4DE2CCA0
  {
    hide State;
    NextWord(120, 0x8B1F37B4EDEDB9A3);
    assert SeedStep(0x8B1F37B4EDEDB9A3, 121) == 0x8FB8B09C989580C6;
    NextWord(121, 0x8FB8B09C989580C6);
    assert SeedStep(0x8FB8B09C989580C6, 122) == 0x9A8C5EEB1F3CDEEE;
    NextWord(122, 0x9A8C5EEB1F3CDEEE);
    assert SeedStep(0x9A8C5EEB1F3CDEEE, 123) == 0x4BAB3EB7FA643F7;
    NextWord(123, 0x4BAB3EB7FA643F7);
    assert SeedStep(0x4BAB3EB7FA643F7, 124) == 0x68327B16CEB47BE7;
    NextWord(124, 0x68327B16CEB47BE7);
    assert SeedStep(0x68327B16CEB47BE7, 125) == 0x652AD6D0440EE1EB;
    NextWord(125, 0x652AD6D0440EE1EB);
    assert SeedStep(0x652AD6D0440EE1EB, 126) == 0xF57FDA3C4DE2CCA0;
  }

  lemma Words127To132()
    requires State(SEED, 126) == 0xF57FDA3C4DE2CCA0
    ensures State(SEED, 132) == 0x9D78E605C21D8C92
  {
    hide State;
    NextWord(126, 0xF57FDA3C4DE2CCA0);
    assert SeedStep(0xF57FDA3C4DE2CCA0, 127) == 0x247245A5B341D626;
    NextWord(127, 0x247245A5B341D626);
    assert SeedStep(0x247245A5B341D626, 128) == 0xE8012FA117ED7F2E;
    NextWord(128, 0xE8012FA117ED7F2E);
    assert SeedStep(0xE8012FA117ED7F2E, 129) == 0x31E6F8156807AE6A;
    NextWord(129, 0x31E6F8156807AE6A);
    assert SeedStep(0x31E6F8156807AE6A, 130) == 0x5524BF4114923F24;
    NextWord(130, 0x5524BF4114923F24);
    assert SeedStep(0x5524BF4114923F24, 131) == 0x89ECA903E7917504;
    NextWord(131, 0x89ECA903E7917504);
    assert SeedStep(0x89ECA903E7917504, 132) == 0x9D78E605C21D8C92;
  }

  lemma Words133To138()
    requires State(SEED, 132) == 0x9D78E605C21D8C92
    ensures State(SEED, 138) == 0x8A7FD0C38BD925A2
  {
    hide State;
    NextWord(132, 0x9D78E605C21D8C92);
    assert SeedStep(0x9D78E605C21D8C92, 133) == 0x8213008D57BD25D5;
    NextWord(133, 0x8213008D57BD25D5);
    assert SeedStep(0x8213008D57BD25D5, 134) == 0x2845027D1C285051;
    NextWord(134, 0x2845027D1C285051);
    assert SeedStep(0x2845027D1C285051, 135) == 0x88CF2E81BE134DC4;
    NextWord(135, 0x88CF2E81BE134DC4);
    assert SeedStep(0x88CF2E81BE134DC4, 136) == 0xE59A4A3B0937E656;
    NextWord(136, 0xE59A4A3B0937E656);
    assert SeedStep(0xE59A4A3B0937E656, 137) == 0xA14CCCCEA590A87A;
    NextWord(137, 0xA14CCCCEA590A87A);
    assert SeedStep(0xA14CCCCEA590A87A, 138) == 0x8A7FD0C38BD925A2;
  }

  lemma Words139To144()
    requires State(SEED, 138) == 0x8A7FD0C38BD925A2
    ensures State(SEED, 144) == 0xBE9684A2E7E52114
  {
    hide State;
    NextWord(138, 0x8A7FD0C38BD925A2);
    assert SeedStep(0x8A7FD0C38BD925A2, 139) == 0xC505AE6EB4F5FDAB;
    NextWord(139, 0xC505AE6EB4F5FDAB);
    assert SeedStep(0xC505AE6EB4F5FDAB, 140) == 0x1EDAA63E5ADBEF14;
    NextWord(140, 0x1EDAA63E5ADBEF14);
    assert SeedStep(0x1EDAA63E5ADBEF14, 141) == 0x48086B892AE7F311;
    NextWord(141, 0x48086B892AE7F311);
    assert SeedStep(0x48086B892AE7F311, 142) == 0x2CE7C25ED4AAAA5E;
    NextWord(142, 0x2CE7C25ED4AAAA5E);
    assert SeedStep(0x2CE7C25ED4AAAA5E, 143) == 0x6A9E329B1D3A9515;
    NextWord(143, 0x6A9E329B1D3A9515);
    assert SeedStep(0x6A9E329B1D3A9515, 144) == 0xBE9684A2E7E52114;
  }

  lemma Words145To150()
    requires State(SEED, 144) == 0xBE9684A2E7E52114
    ensures State(SEED, 150) == 0xAAAA9BECDE4B2F4E
  {
    hide State;
    NextWord(144, 0xBE9684A2E7E52114);
    assert SeedStep(0xBE9684A2E7E52114, 145) == 0xEAB0E8BA387EBB6F;
    NextWord(145, 0xEAB0E8BA387EBB6F);
    assert SeedStep(0xEAB0E8BA387EBB6F, 146) == 0xE7CBAE25F31D868E;
    NextWord(146, 0xE7CBAE25F31D868E);
    assert SeedStep(0xE7CBAE25F31D868E, 147) == 0x5581BF318E019A5C;
    NextWord(147, 0x5581BF318E019A5C);
    assert SeedStep(0x5581BF318E019A5C, 148) == 0xB07E184435FD45ED;
    NextWord(148, 0xB07E184435FD45ED);
    assert SeedStep(0xB07E184435FD45ED, 149) == 0x20BACEF5CB51DC98;
    NextWord(149, 0x20BACEF5CB51DC98);
    assert SeedStep(0x20BACEF5CB51DC98, 150) == 0xAAAA9BECDE4B2F4E;
  }

  lemma Words151To156()
    requires State(SEED, 150) == 0xAAAA9BECDE4B2F4E
    ensures State(SEED, 156) == 0x245B1C66FA082BFF
  {
    hide State;
    NextWord(150, 0xAAAA9BECDE4B2F4E);
    assert SeedStep(0xAAAA9BECDE4B2F4E, 151) == 0x898B5F1376EA04F3;
    NextWord(151, 0x898B5F1376EA04F3);
    assert SeedStep(0x898B5F1376EA04F3, 152) == 0xCB65A0736BDB6DF5;
    NextWord(152, 0xCB65A0736BDB6DF5);
    assert SeedStep(0xCB65A0736BDB6DF5, 153) == 0x47E02E65D94D5ED7;
    NextWord(153, 0x47E02E65D94D5ED7);
    assert SeedStep(0x47E02E65D94D5ED7, 154) == 0x99EAC4824F33D638;
    NextWord(154, 0x99EAC4824F33D638);
    assert SeedStep(0x99EAC4824F33D638, 155) == 0xA1C29D298B256ECD;
    NextWord(155, 0xA1C29D298B256ECD);
    assert SeedStep(0xA1C29D298B256ECD, 156) == 0x245B1C66FA082BFF;
  }

  lemma Words157To158()
    requires State(SEED, 156) == 0x245B1C66FA082BFF
    ensures State(SEED, 158) == 0x16CD2293A14B5D4E
    ensures State(SEED, 157) == 0x252CFC850AE3D70
  {
    hide State;
    NextWord(156, 0x245B1C66FA082BFF);
    assert SeedStep(0x245B1C66FA082BFF, 157) == 0x252CFC850AE3D70;
    NextWord(157, 0x252CFC850AE3D70);
    assert SeedStep(0x252CFC850AE3D70, 158) == 0x16CD2293A14B5D4E;
  }

  /** The words that the first three outputs depend on. */
  lemma SeededWords()
    ensures State(SEED, 0) == 5489 && State(SEED, 1) == 0xB5347F47116BD3DE && State(SEED, 2) == 0x9165B5762D1A61AE && State(SEED, 3) == 0xD139B6BBED337F3F
    ensures State(SEED, 156) == 0x245B1C66FA082BFF && State(SEED, 157) == 0x252CFC850AE3D70 && State(SEED, 158) == 0x16CD2293A14B5D4E
  {
    hide State, SeedStep;
    FirstWord();
    Words1To6();
    Words7To12();
    Words13To18();
    Words19To24();
    Words25To30();
    Words31To36();
    Words37To42();
    Words43To48();
    Words49To54();
    Words55To60();
    Words61To66();
    Words67To72();
    Words73To78();
    Words79To84();
    Words85To90();
    Words91To96();
    Words97To102();
    Words103To108();
    Words109To114();
    Words115To120();
    Words121To126();
    Words127To132();
    Words133To138();
    Words139To144();
    Words145To150();
    Words151To156();
    Words157To158();
  }

  lemma Mixed0()
    ensures Temper(Twist(0x1571, 0xB5347F47116BD3DE, 0x245B1C66FA082BFF)) == 14514284786278117030
  {
  }

  lemma Mixed1()
    ensures Temper(Twist(0xB5347F47116BD3DE, 0x9165B5762D1A61AE, 0x252CFC850AE3D70)) == 4620546740167642908
  {
  }

  lemma Mixed2()
    ensures Temper(Twist(0x9165B5762D1A61AE, 0xD139B6BBED337F3F, 0x16CD2293A14B5D4E)) == 13109570281517897720
  {
  }

  /** The first three outputs. */
  lemma FirstOutputs()
    ensures Output(SEED, 0) == 14514284786278117030
    ensures Output(SEED, 1) == 4620546740167642908
    ensures Output(SEED, 2) == 13109570281517897720
  {
    hide State, SeedStep, Twist, Temper;
    SeededWords();
    Recurrence(SEED, 0);
    Recurrence(SEED, 1);
    Recurrence(SEED, 2);
    Mixed0();
    Mixed1();
    Mixed2();
  }
}
