/** That -7 is not a cube modulo the field prime of secp256k1, so that no point of the curve has y = 0. */
module CubeRoots {
  import opened Powers
  import opened Numerals
  import opened NumberTheory
  import opened Secp256k1

  // ---------------------------------------------------------------- powers of -7

  /** The residue of a power of -7. The base is bound, so that no power is unfolded; where residues are computed the modulus
      is written out, so that they are arithmetic on numerals. */
  ghost predicate At(e: nat, r: nat) {
    exists base: nat :: base == P - 7 && Pow(base, e) % P == r
  }

  lemma SquareStep(e: nat, r: nat, s: nat)
    requires At(e, r) && r * r % 0xFFFFFFFFFFFFFFFF_FFFFFFFFFFFFFFFF_FFFFFFFFFFFFFFFF_FFFFFFFEFFFFFC2F == s
    ensures At(2 * e, s)
  {
    hide Pow;
    var base: nat :| base == P - 7 && Pow(base, e) % P == r;
    PowAdd(base, e, e);
    MulMod2(Pow(base, e), Pow(base, e), P);
  }

  lemma MultiplyStep(e: nat, r: nat, d: nat, k: nat, s: nat)
    requires At(e, r) && At(d, k) && r * k % 0xFFFFFFFFFFFFFFFF_FFFFFFFFFFFFFFFF_FFFFFFFFFFFFFFFF_FFFFFFFEFFFFFC2F == s
    ensures At(e + d, s)
  {
    hide Pow;
    var base: nat :| base == P - 7 && Pow(base, e) % P == r;
    PowAdd(base, e, d);
    MulMod2(Pow(base, e), Pow(base, d), P);
  }

  /** Four squarings. */
  lemma SixteenthStep(e: nat, r: nat, a: nat, b: nat, c: nat, s: nat)
    requires At(e, r)
    requires r * r % 0xFFFFFFFFFFFFFFFF_FFFFFFFFFFFFFFFF_FFFFFFFFFFFFFFFF_FFFFFFFEFFFFFC2F == a
    requires a * a % 0xFFFFFFFFFFFFFFFF_FFFFFFFFFFFFFFFF_FFFFFFFFFFFFFFFF_FFFFFFFEFFFFFC2F == b
    requires b * b % 0xFFFFFFFFFFFFFFFF_FFFFFFFFFFFFFFFF_FFFFFFFFFFFFFFFF_FFFFFFFEFFFFFC2F == c
    requires c * c % 0xFFFFFFFFFFFFFFFF_FFFFFFFFFFFFFFFF_FFFFFFFFFFFFFFFF_FFFFFFFEFFFFFC2F == s
    ensures At(16 * e, s)
  {
    hide At;
    SquareStep(e, r, a);
    SquareStep(2 * e, a, b);
    SquareStep(4 * e, b, c);
    SquareStep(8 * e, c, s);
  }

  lemma FirstPower()
    ensures At(0, 1) && At(1, 0xFFFFFFFFFFFFFFFF_FFFFFFFFFFFFFFFF_FFFFFFFFFFFFFFFF_FFFFFFFEFFFFFC28)
  {
    assert Pow(P - 7, 1) == (P - 7) * Pow(P - 7, 0);
  }

  lemma SmallPowers()
    ensures At(4, 0x961)
    ensures At(5, 0xFFFFFFFFFFFFFFFF_FFFFFFFFFFFFFFFF_FFFFFFFFFFFFFFFF_FFFFFFFEFFFFBA88)
    ensures At(10, 0x10D63AF1)
    ensures At(11, 0xFFFFFFFFFFFFFFFF_FFFFFFFFFFFFFFFF_FFFFFFFFFFFFFFFF_FFFFFFFE8A245F98)
    ensures At(14, 0x0000009DE93ECE51)
    ensures At(15, 0xFFFFFFFFFFFFFFFF_FFFFFFFFFFFFFFFF_FFFFFFFFFFFFFFFF_FFFFFBAD9F4857F8)
  {
    hide At;
    FirstPower();
    SquareStep(1, 0xFFFFFFFFFFFFFFFF_FFFFFFFFFFFFFFFF_FFFFFFFFFFFFFFFF_FFFFFFFEFFFFFC28, 0x31);
    SquareStep(2, 0x31, 0x961);
    MultiplyStep(4, 0x961,
                 1, 0xFFFFFFFFFFFFFFFF_FFFFFFFFFFFFFFFF_FFFFFFFFFFFFFFFF_FFFFFFFEFFFFFC28,
                 0xFFFFFFFFFFFFFFFF_FFFFFFFFFFFFFFFF_FFFFFFFFFFFFFFFF_FFFFFFFEFFFFBA88);
    SquareStep(5, 0xFFFFFFFFFFFFFFFF_FFFFFFFFFFFFFFFF_FFFFFFFFFFFFFFFF_FFFFFFFEFFFFBA88, 0x10D63AF1);
    MultiplyStep(10, 0x10D63AF1,
                 1, 0xFFFFFFFFFFFFFFFF_FFFFFFFFFFFFFFFF_FFFFFFFFFFFFFFFF_FFFFFFFEFFFFFC28,
                 0xFFFFFFFFFFFFFFFF_FFFFFFFFFFFFFFFF_FFFFFFFFFFFFFFFF_FFFFFFFE8A245F98);
    MultiplyStep(10, 0x10D63AF1,
                 4, 0x961,
                 0x0000009DE93ECE51);
    MultiplyStep(14, 0x0000009DE93ECE51,
                 1, 0xFFFFFFFFFFFFFFFF_FFFFFFFFFFFFFFFF_FFFFFFFFFFFFFFFF_FFFFFFFEFFFFFC28,
                 0xFFFFFFFFFFFFFFFF_FFFFFFFFFFFFFFFF_FFFFFFFFFFFFFFFF_FFFFFBAD9F4857F8);
  }

  // ---------------------------------------------------------------- the digits of (P - 1) / 3

  lemma Fives13()
    ensures At(0x5555555555555,
               0x001C69F913736112_17D94F99F795940E_5D284990B60B92FB_60CB87A5559B822D)
  {
    hide At;
    SmallPowers();
    SixteenthStep(0x5,
                  0xFFFFFFFFFFFFFFFF_FFFFFFFFFFFFFFFF_FFFFFFFFFFFFFFFF_FFFFFFFEFFFFBA88,
                  0x10D63AF1,
                  0x011B7AA4B87E16E1,
                  0x000139E862F1509B_A9C74345F78771C1,
                  0x0000000180EA14E5_92BC647D081EE78B_A6D7C3465FC3BB29_EFF2FD359A19F381);
    MultiplyStep(0x50,
                 0x0000000180EA14E5_92BC647D081EE78B_A6D7C3465FC3BB29_EFF2FD359A19F381,
                 0x5, 0xFFFFFFFFFFFFFFFF_FFFFFFFFFFFFFFFF_FFFFFFFFFFFFFFFF_FFFFFFFEFFFFBA88,
                 0xFFFF9D4977FE13FB_7196B35FDB0C7E89_60AABEC6D4CB41B7_C63235E6E23E6208);
    SixteenthStep(0x55,
                  0xFFFF9D4977FE13FB_7196B35FDB0C7E89_60AABEC6D4CB41B7_C63235E6E23E6208,
                  0xC0AC1621D65B051A_FC8529734A32F402_2A41431B87946413_CCF2ABB0668487D4,
                  0x4574FAD633E82C9F_0C54C753BF0E32DD_D9EB89886190268A_6116605DC5139B4B,
                  0x1A6800AEE2F4E806_7B7326BC57BC98D7_2AFE5B0BF929A9C4_BFF7DAE5E8001752,
                  0xF6B0DFCB6BACB23F_CA2A212C000C3D32_8578D30400F60100_CF96F8D752AA32B9);
    MultiplyStep(0x550,
                 0xF6B0DFCB6BACB23F_CA2A212C000C3D32_8578D30400F60100_CF96F8D752AA32B9,
                 0x5, 0xFFFFFFFFFFFFFFFF_FFFFFFFFFFFFFFFF_FFFFFFFFFFFFFFFF_FFFFFFFEFFFFBA88,
                 0x29CB5BF5E915860E_6C183048DC7A4027_409A5424E94423C3_3F54C047DB267DCD);
    SixteenthStep(0x555,
                  0x29CB5BF5E915860E_6C183048DC7A4027_409A5424E94423C3_3F54C047DB267DCD,
                  0x8CDDB91833DBA20F_BECB7CAF0A275896_23964CDF39604AFC_72BDEC62C4C5492C,
                  0xCB37BAC0C41121B1_123C6FD1DC728677_206631082421CB83_0E6126C3F905AB72,
                  0x74FF397C089767C9_07F668E7F49FBE80_8466AC1D9DAB98FE_C9FC25C8C922AC7F,
                  0x89C37D656FB01A99_CE3951B0E807A1F7_BA1F0E0D2780A73B_524EA76DA711CC9C);
    SixteenthStep(0x5550,
                  0x89C37D656FB01A99_CE3951B0E807A1F7_BA1F0E0D2780A73B_524EA76DA711CC9C,
                  0x5A6896A3015A2FC7_32B50F235BF1E3A6_A99647EBDF0BDABE_3EF94846CE564B7D,
                  0x1F93582FE325E0CF_797097D44ADA6D9D_2F70AD73F6514A7B_FE5AB3DF87107AAC,
                  0xAAFA0642ED08359C_C57F0BDEFE1E12D8_8B1767F9E5179374_0889A1C02975799A,
                  0xEFFB7C715CFA2777_1C0C06CEE0CB7C50_16F3CFDB1785AC53_2D6E9BF31AE124A5);
    SixteenthStep(0x55500,
                  0xEFFB7C715CFA2777_1C0C06CEE0CB7C50_16F3CFDB1785AC53_2D6E9BF31AE124A5,
                  0x9CC44B95FB3B91B1_726591FFC9EAB7D2_3E0ACFF311BB2019_B7A454BE62ED8FDD,
                  0x2AFF2CE4A884E08F_477A6330855AA630_CAD23724604B45F2_FE503E1C7D9A9E8D,
                  0xB73AF2766BE884F1_827970DC0F35B7B4_DBEFF8B8970181CC_2050C400A69538E8,
                  0x46066974F9BE8784_D70044D4AC73DD1D_FB3666F792BB349D_5B5C74E53C4EDE74);
    MultiplyStep(0x555000,
                 0x46066974F9BE8784_D70044D4AC73DD1D_FB3666F792BB349D_5B5C74E53C4EDE74,
                 0x555, 0x29CB5BF5E915860E_6C183048DC7A4027_409A5424E94423C3_3F54C047DB267DCD,
                 0xF433FE2F55CF611B_52F874351A91C838_AFE30AE892D6C69C_5F6D522E43ADA749);
    SixteenthStep(0x555555,
                  0xF433FE2F55CF611B_52F874351A91C838_AFE30AE892D6C69C_5F6D522E43ADA749,
                  0x943A57A122C555EF_7EC0026F4A51A343_6FE0395EF959E021_4CA0E6CEC1D73EF1,
                  0x29F239BA748D9E00_AFD87EE34920966B_4D2CAA60CA888342_8EA25DAAEF593325,
                  0x878AD075BF4DAFBA_4745409F17FCD57D_D9701E7061D68731_7AD3DF48437FD8B8,
                  0xD19DADF4F49A8490_E4F11BFA8803B889_E5F2FDE55798297E_076115C593FCD6DC);
    SixteenthStep(0x5555550,
                  0xD19DADF4F49A8490_E4F11BFA8803B889_E5F2FDE55798297E_076115C593FCD6DC,
                  0x4EA3DCE58FB5F549_A63D5CAEAED7B5F5_1C28202E4F872CC2_EBF19B33362C278E,
                  0x8FE21455243600DE_1B1B49E2804CA37E_B0AAF61CE2AD5C06_04C759B5357591F8,
                  0x4B44F385F9A166E1_732EA63DEC70715E_E00E1F678B17E797_9A2F473C3FAF4CDE,
                  0x826416EF194EEFEE_1FECDA97408469AD_DABEECD8A3AA5A5E_90D12E1432C543D9);
    SixteenthStep(0x55555500,
                  0x826416EF194EEFEE_1FECDA97408469AD_DABEECD8A3AA5A5E_90D12E1432C543D9,
                  0x7BE063CDD7698A6E_3190D2FBAEFE36F5_18051B2C607AA6B6_476BEDA68E3393D0,
                  0x22E450A46AF2262A_D4154180D69C2DAB_03899889DB0C8209_A09A8C25ADF5A587,
                  0x990E3EF8BCAB8CEE_4C7C92B627298FD8_7D359A301F29E485_E7BB8A680123C8E5,
                  0xD842D4FE9868E10D_EF6F2AC07291F63B_573DD800C80DE321_5BB6FCA33B40A93D);
    SixteenthStep(0x555555000,
                  0xD842D4FE9868E10D_EF6F2AC07291F63B_573DD800C80DE321_5BB6FCA33B40A93D,
                  0xC84A4B5C0EF34570_12DFE2B525AB5F0F_A44C54AC1C021AC6_686D6D6BAFD014C6,
                  0x22D173B9F2E9AEBE_E54AC60CB0645CF3_11559BF882676D72_0C538DA58A03EDDB,
                  0x652670C77F4BAF73_B465EA7DB9C2D5DA_8508DE553F931F1B_26D33B154A5A4145,
                  0xFAF0A38122B99A09_1AF20F09F1C01F88_3FEAF329FF59B0DB_FA7300B7A27BF063);
    SixteenthStep(0x5555550000,
                  0xFAF0A38122B99A09_1AF20F09F1C01F88_3FEAF329FF59B0DB_FA7300B7A27BF063,
                  0xA112274CDB7424F3_6922DAC8E81602CC_EC1B9EE584E82D20_29E968FADDC60FE0,
                  0xEBA09D5D7775ED61_547FEA37F8C03413_6D697EE57F3F28C2_023B35473BCA56F4,
                  0x120C9B72F4F1C357_2A862F3FD33B2658_7AC27D1110FB7859_D538E93CA9A485FE,
                  0x46A435EF11A28FA1_6AAB75CFE2BD9A69_47270D4D4E5A9352_0753407E7152A9CB);
    SixteenthStep(0x55555500000,
                  0x46A435EF11A28FA1_6AAB75CFE2BD9A69_47270D4D4E5A9352_0753407E7152A9CB,
                  0x1DAFA6BF2B49B6D7_750984A8752572B7_9C9863AC41DD0233_D67A5198E93CF27B,
                  0x88219F846DBA0816_D389490C14E39220_03E765D779AFAA0B_AC99E2B59B1066C2,
                  0xC998C35C4B3EDEAC_1110D3E7E06329F3_D9CC576B3A8FA054_479DF7BCBD5B375F,
                  0xC38E545000ADB51B_1D4606C9867A7A93_BAB216B0D6663CB6_04D8F4230FC372E4);
    MultiplyStep(0x555555000000,
                 0xC38E545000ADB51B_1D4606C9867A7A93_BAB216B0D6663CB6_04D8F4230FC372E4,
                 0x555555, 0xF433FE2F55CF611B_52F874351A91C838_AFE30AE892D6C69C_5F6D522E43ADA749,
                 0x273891888B802B3D_A703C7CE0A994F54_22338B8AA2CDB9F0_2E9F3425B043C409);
    SixteenthStep(0x555555555555,
                  0x273891888B802B3D_A703C7CE0A994F54_22338B8AA2CDB9F0_2E9F3425B043C409,
                  0x55C4E46E4BA9EF4C_BDC0DF641BA8F400_8C1CB96D72A7347D_077BBC2E75038C46,
                  0x8B3EB846BB002DC3_3115C2635B6275F1_44715F774940029F_BCAA222D2FEA3EB0,
                  0x03EFEA5382A2CDD3_732FE9FAF4189DAD_4A879A926D2DD843_ED735CDCA4A53E1E,
                  0x465AFE269133FE8C_15D745C981C28022_C9D878A18DF6DC3A_23CDD84FE9161A68);
    MultiplyStep(0x5555555555550,
                 0x465AFE269133FE8C_15D745C981C28022_C9D878A18DF6DC3A_23CDD84FE9161A68,
                 0x5, 0xFFFFFFFFFFFFFFFF_FFFFFFFFFFFFFFFF_FFFFFFFFFFFFFFFF_FFFFFFFEFFFFBA88,
                 0x001C69F913736112_17D94F99F795940E_5D284990B60B92FB_60CB87A5559B822D);
  }

  lemma Fives27()
    ensures At(0x555555555555555555555555555,
               0x150D725F22361575_22581AF8531AD628_45EFF3468908C3FE_FAAC71006FDE27AE)
  {
    hide At;
    SmallPowers();
    Fives13();
    SixteenthStep(0x5555555555555,
                  0x001C69F913736112_17D94F99F795940E_5D284990B60B92FB_60CB87A5559B822D,
                  0x116C7C44BDD9CF71_86918BAE9F525AEB_6F883454869C4C89_C471DFADF56D3D6E,
                  0xEE2F1D98B632B8A4_94A566912D6E47B2_276F7994E48796D2_B875789B4F5F917E,
                  0xDAE82C10B1221BAB_BBE82A877DF7D6C6_A4D1699946AD0F61_C5CD784171B21ACA,
                  0xBFD6B8810B8D8491_B5095603AEF1E5D1_5B760F1B765390B2_7BE0F7ACF92AD3ED);
    SixteenthStep(0x55555555555550,
                  0xBFD6B8810B8D8491_B5095603AEF1E5D1_5B760F1B765390B2_7BE0F7ACF92AD3ED,
                  0xC9EFB23DD2A1F85E_6DC00D3D2C24B4BB_4840F4064396285F_FE8903CFCF4647F2,
                  0xCF7454DE5703741F_AD30F25C7E2207E3_9454E886E169B4D8_68231930D8A2F18E,
                  0xF496A6F481FEF811_99594EDDCC98090B_56ED86BF865E798F_8D0A449339F1E00B,
                  0xF7FC0DB023CE2242_978FBE8F77FF2A62_BDE0EBAE3F55F279_CAFA5124B98488DF);
    SixteenthStep(0x555555555555500,
                  0xF7FC0DB023CE2242_978FBE8F77FF2A62_BDE0EBAE3F55F279_CAFA5124B98488DF,
                  0xE323E392BF7E97C7_3F8CFFA6C589B1BE_231E8D94FB43616B_6B950D8934EF04B2,
                  0x8401D6ED3E2B6DCC_0861EF386BD2EB5A_0550D00E9938ED79_87BA4DB8D3E79458,
                  0x65E0470B91218732_B31C44DCABA7E7D5_B41F705824E96236_0BCC1F9AB0227D98,
                  0x50CA3C27D694FA43_CE68A18834078ED5_D8835823E001CAAA_9F5B2A6F163D68C6);
    SixteenthStep(0x5555555555555000,
                  0x50CA3C27D694FA43_CE68A18834078ED5_D8835823E001CAAA_9F5B2A6F163D68C6,
                  0xBDBDB0EC08BD572C_836C4751A579C154_D7FA402E3B7120EB_D1C04C1A0787E7C4,
                  0xA6FFD4A529856751_2F56C51139DFE519_935243B157CC0D02_B9F2574B34907F34,
                  0x50CB521105C1881B_5878E266E331B751_4092EC69FDBB11E2_6D56FD1811EF1238,
                  0x0FADB38B333178B2_0631DBAB33B1243C_01F893BD8F8367C7_27E4AB744B0CCE1C);
    SixteenthStep(0x55555555555550000,
                  0x0FADB38B333178B2_0631DBAB33B1243C_01F893BD8F8367C7_27E4AB744B0CCE1C,
                  0x7DF0180D317B2562_D6D52BB923FD6E32_E4F945955E2B3C26_9281830A77B8D09D,
                  0x4CCE578BE1D7F4F7_B48D7A2F22242B0B_84718196D7855DCF_96614658CE3CAAF8,
                  0x4B7CA6E3B67FACF5_0564755B72D89C3F_D6A79CF80241E33A_6FB64550CEF980F0,
                  0x18D2044D2B01059E_ECFB248851111DE2_1313CFD020B3DD5A_7F28572D092D7754);
    SixteenthStep(0x555555555555500000,
                  0x18D2044D2B01059E_ECFB248851111DE2_1313CFD020B3DD5A_7F28572D092D7754,
                  0x4074E9A86A2386DA_E4B427AB46C1C845_EA3794E4DC31294E_A050F3F9E0B74BA5,
                  0xB124C339D6DE2A36_8D31194DAD20F5DD_E3E30E912865CBAD_3B50002230739974,
                  0xDADA785886ACB25B_B0BF24DB33053187_3E0F98CD7C052F6E_89104191A23DA817,
                  0x24DE60A14BEA6530_035E8AE039E0F219_C958749C854AAC59_D1030ED57BB3BA4D);
    SixteenthStep(0x5555555555555000000,
                  0x24DE60A14BEA6530_035E8AE039E0F219_C958749C854AAC59_D1030ED57BB3BA4D,
                  0xEAE020A1D4378BB8_094CE0C836A1E621_AC586F435E52DC40_2607F60CB8015A6E,
                  0x71B7B53B331941B1_924E0B4D29CEA9DF_0A210CD1F51EF738_0F623D623EE86E7B,
                  0x0809CE5BA6F82D00_94D780FF468703A5_19BD23C4537A8278_0ECB012C7BF4C342,
                  0x91512618AA3CAFF2_44968A65502160A7_A6F2B2993FEBEC30_58C69B87D1305678);
    SixteenthStep(0x55555555555550000000,
                  0x91512618AA3CAFF2_44968A65502160A7_A6F2B2993FEBEC30_58C69B87D1305678,
                  0x1F1E75A2C1E455FB_0C71EFABC499690D_72DC6ABD245E146B_82901E0E17E5F4F5,
                  0x9537EE188D809078_CBCDB27F5AA47FDF_8199DA6148106A2C_1EBBD968DEF071BD,
                  0xC34BDCCD69075285_5E52C2D8F10BCB0E_4DB098E06DC2C844_DB783DD4AEFA3182,
                  0x898A9A358C47D96B_36D92AE2C2E2D10C_168C282B523A0584_3EBD176818370242);
    SixteenthStep(0x555555555555500000000,
                  0x898A9A358C47D96B_36D92AE2C2E2D10C_168C282B523A0584_3EBD176818370242,
                  0x018B1D269A57F845_F99683D22E9DFF66_0EDF243413736301_6AD1964C03DFE616,
                  0x7A4ADBE00BB02917_D2DF09B5DC12F4A0_F3A0BB2233C8656E_F06C72B53F22E288,
                  0x532F196A48D6BFE1_0961CE6005215C4D_01A57CD73F40E868_FDE122C71808BEBD,
                  0xE7FD8C30BF0A876D_C53215709F722D23_568DD15B4751840F_CF2CDC7F6E8BCEFC);
    SixteenthStep(0x5555555555555000000000,
                  0xE7FD8C30BF0A876D_C53215709F722D23_568DD15B4751840F_CF2CDC7F6E8BCEFC,
                  0x434FD5578AAF1AC6_F9992B81D36DBECD_D32A8B064DC755C4_E389B093AC97F0DA,
                  0xE58081D5D04C9E40_8A30AC3DA33BDFA3_F3B35E3E4BA57E69_C78FC90978F2A11A,
                  0xA66238E00CD35E5B_BA3EE71B4289C013_A6B81AC020A70D55_70A6AF3DE15211BC,
                  0xA4ED62F5F046EE08_19BDC3F7417B461D_9E1734E0E9AD8B60_1FD659C076EB5DCA);
    SixteenthStep(0x55555555555550000000000,
                  0xA4ED62F5F046EE08_19BDC3F7417B461D_9E1734E0E9AD8B60_1FD659C076EB5DCA,
                  0x9663B3510F12D868_5D66DE7A2B0CA2C4_5D1B0C24A2B4D402_D66501131EDD8084,
                  0xD693D3490B718DA5_690838EF2C2F50B9_025E0F4B7C95888E_1E954F9DAD0C8A26,
                  0x13C68FDE22391D6B_7852747FC3DA201F_044309B1C2AC862A_7B3BB1F8FB6ECE32,
                  0x3B602B75EF9ECF7D_565D7692B8F499B0_ECBA629B5F916DDF_73A08E1DB1AFB0BB);
    SixteenthStep(0x555555555555500000000000,
                  0x3B602B75EF9ECF7D_565D7692B8F499B0_ECBA629B5F916DDF_73A08E1DB1AFB0BB,
                  0xA7FBCA485187009B_5308D67356B28EA1_2C5CC8C12C4A6E16_B0A298306CDB521D,
                  0x1E39C09CF3A37072_E29CE23EC471CB05_B38A8A91AC842E2A_40F1754AAA9708AC,
                  0x0861AB55422D2564_A9C0EDEE8583B507_E53932A674BA3A39_0D1C38F7C2628F52,
                  0xDB057078EA68D29F_9369C131F8A8DB4F_1A241649BBF0C0DE_0AFF444D306CCCC6);
    SixteenthStep(0x5555555555555000000000000,
                  0xDB057078EA68D29F_9369C131F8A8DB4F_1A241649BBF0C0DE_0AFF444D306CCCC6,
                  0x32687439C344743C_5411843F7A8650F2_8E24F948D4FD883D_8A547FFF6D069C73,
                  0x8506869D7A3CD72D_6D1D4183F9C0BF7D_C0F64DCF3C1E8B84_C3D6EADA1968228E,
                  0x455C848AF0BD8BB4_153D2B28359D1D7B_015F1212AB8D9955_E407246BAED76732,
                  0x1D83525DEAE6960E_BBDDF2D408A90A73_AF6B21AA647D93F5_C3D169FE31B0F902);
    MultiplyStep(0x55555555555550000000000000,
                 0x1D83525DEAE6960E_BBDDF2D408A90A73_AF6B21AA647D93F5_C3D169FE31B0F902,
                 0x5555555555555, 0x001C69F913736112_17D94F99F795940E_5D284990B60B92FB_60CB87A5559B822D,
                 0x5AC075F5642D86B3_40F3BEADBEAC3CD1_322EB2D69730AE4F_702F7378E969DBF8);
    SixteenthStep(0x55555555555555555555555555,
                  0x5AC075F5642D86B3_40F3BEADBEAC3CD1_322EB2D69730AE4F_702F7378E969DBF8,
                  0xE64D489119AA2088_8626F89285BCD2D1_C0F8674D187982C5_6FFB86D5CD68431E,
                  0x5A24D0B89D7773D6_B81FC402F11F5D69_7CE5FA25C9866CD1_40A2DD8846195855,
                  0x06B19D2E22C7DBFA_714F2738EEFB3CD3_B7B306C6E63F0611_9B142446502AE9D4,
                  0x4BC6D59E540FDE46_8FCD0781F52E3626_BF46B1062E0D7AC5_7EB2B048CD16BD15);
    MultiplyStep(0x555555555555555555555555550,
                 0x4BC6D59E540FDE46_8FCD0781F52E3626_BF46B1062E0D7AC5_7EB2B048CD16BD15,
                 0x5, 0xFFFFFFFFFFFFFFFF_FFFFFFFFFFFFFFFF_FFFFFFFFFFFFFFFF_FFFFFFFEFFFFBA88,
                 0x150D725F22361575_22581AF8531AD628_45EFF3468908C3FE_FAAC71006FDE27AE);
  }

  lemma Fives27Shifted()
    ensures At(0x55555555555555555555555555500000000000000,
               0x43EB6A3B0A379C98_0BC0A415530CDEDF_AF102A2FA28030C2_EE5AD5F9937C4F4B)
  {
    hide At;
    SmallPowers();
    Fives27();
    SixteenthStep(0x555555555555555555555555555,
                  0x150D725F22361575_22581AF8531AD628_45EFF3468908C3FE_FAAC71006FDE27AE,
                  0xB678A326884C7F34_C461D69B7F007C31_0101E34A1F6AD2D5_B704FC3B28EDF6E5,
                  0x1CCB886B1F62D50D_A99859A3816F5A4D_77E08E831C9688D8_2626F269963EFB12,
                  0xD233998D78E04533_419393D5F0B7E598_900B4C79F337FCF2_7714D76BB8629633,
                  0xB20D9B288EE82E48_8693D4508C26BD31_D9AC251FB793B315_9882F32106FF8597);
    SixteenthStep(0x5555555555555555555555555550,
                  0xB20D9B288EE82E48_8693D4508C26BD31_D9AC251FB793B315_9882F32106FF8597,
                  0x0D1FC4B9B5DB8F94_8512B10CCAFCC01E_094C992F31F3B7D8_95E7461C6E3CB71F,
                  0x0EFF3D3DBBA206C6_CAD5B39FE36ADBBF_B0D818D28146BCAA_9DFDAEBE8D6A37CF,
                  0x821C4D7A34B72733_D8CA79C31DF8E31A_6D6EC4869ED5A93A_140BE3876E11FC79,
                  0x7032B90572FE9B92_659A4CB39979F2F0_92BBCB81BE8747DD_AF3AF6779C87819F);
    SixteenthStep(0x55555555555555555555555555500,
                  0x7032B90572FE9B92_659A4CB39979F2F0_92BBCB81BE8747DD_AF3AF6779C87819F,
                  0xF46B91F83127904E_A44A9371C8402229_F2BFB87EA0979CED_44C965AA03DA6A1E,
                  0xB444E2EE272B3F43_A75DDD330AB08EFE_96AB91E269218307_32176B93BCAE4451,
                  0x9AF9B6CD04A17910_2A4656C61708B37A_29EAFDAB1C165FC9_437A66F9D64558A5,
                  0x2133EFD2CBE35517_D6F80511DF3A5593_72430E63F0F8A946_3FDD6EF10170A243);
    SixteenthStep(0x555555555555555555555555555000,
                  0x2133EFD2CBE35517_D6F80511DF3A5593_72430E63F0F8A946_3FDD6EF10170A243,
                  0x05590F0B90DFE1AE_F6721A37D1203553_49683C390B7563E1_5BF6CDAFB46B019C,
                  0x56744112B4F1E893_3B85205161E7E269_98D4B79962B1F847_7954C2153C664B63,
                  0x4EE5F2AECC2D9AAA_BC00BCBC049639F8_04E98975CABCD2C0_C8B787A7492C2AA7,
                  0xA9BFE2E8D4373554_B421B2F8EC8EB47D_B4E3F430CDE288B8_AFAC580B80FE4481);
    SixteenthStep(0x5555555555555555555555555550000,
                  0xA9BFE2E8D4373554_B421B2F8EC8EB47D_B4E3F430CDE288B8_AFAC580B80FE4481,
                  0xA5DB3C66AC211BC4_56CDED0C4DE841F3_19040FCE4E168E07_55EB72C0BD0C68C3,
                  0x838CDEA27C547177_A820B7B46515F5FC_F19D2835F8D269CF_87123DBD03DFE3E1,
                  0xB32AF5F8C1D6ED09_FD659672065AC93D_D432DF05FB53ECCC_A0C278D851560865,
                  0x314FDD1779E0B6CD_08DD4C823D6C7DAF_FD5AC73381838EB1_6BC3AF0BE28B9F9E);
    SixteenthStep(0x55555555555555555555555555500000,
                  0x314FDD1779E0B6CD_08DD4C823D6C7DAF_FD5AC73381838EB1_6BC3AF0BE28B9F9E,
                  0x59BB64A890D30A33_A5C6D6797DDA4608_44A4DA145F9402EA_E3A004FA8C268073,
                  0x4CE5395546922E49_2002EED6B48E3530_AC97F22F7F8D24E7_94231C2C71590EF0,
                  0xD2460B5E3A2D800D_92F352923A94A1DC_11C7D7B7C53595BB_E617E97B463CAFE3,
                  0x10D9D6DB15B56D31_1E6A12AB136AAE49_B7E6BE3B6343B6E0_8967C73B1BC77424);
    SixteenthStep(0x555555555555555555555555555000000,
                  0x10D9D6DB15B56D31_1E6A12AB136AAE49_B7E6BE3B6343B6E0_8967C73B1BC77424,
                  0xF8AA3CB6024D3299_76BC5E2B126DDC9F_CF91697EB4E093F0_DCDAF25FC1EB43F4,
                  0x11CCF0958FFAC5D6_32BDE59304818AD2_30EE71D71B9362CA_4417F3BAB0C7B5F9,
                  0x9CD9B45FC572C584_28B7AA07F57A76E7_836B55FF4A290822_92B667961E021EC9,
                  0x7C98316791F9B272_0A4692C8490CF710_5A8C53C9AAE84097_915F5BF034FD70EE);
    SixteenthStep(0x5555555555555555555555555550000000,
                  0x7C98316791F9B272_0A4692C8490CF710_5A8C53C9AAE84097_915F5BF034FD70EE,
                  0x0D5B2EDB271008B4_EA90429DCE0FEEF3_764AFB3160591142_592A5966FC9A7D72,
                  0x3D49A8799B8A6549_182467538E23FF50_EDED048ADB9EA84B_981D373AB48C01B3,
                  0x3C52B9B96A6FE8D0_011E246CFD6055DB_33D791965BBF5873_773C8D8994885FEE,
                  0xC8C4AD3E6CDBE160_27D67803D0F67983_0C5A33B788AC35B2_434FB8E22FF39C0B);
    SixteenthStep(0x55555555555555555555555555500000000,
                  0xC8C4AD3E6CDBE160_27D67803D0F67983_0C5A33B788AC35B2_434FB8E22FF39C0B,
                  0xDDC0B07D096F8443_E0CDCA30385C0C24_775A942AC640E741_B56E9653BD0B2CEA,
                  0x6B799B22BA8752F0_AC8093CA4621FB42_C3994FC4917845DF_7C8518096C60B1DC,
                  0xF7099424BE2A68DF_B50B3361609100BC_6444F2BA90681014_9BB8ED899345716C,
                  0xF991F8D30D1405B2_4B39B8093CEF62AF_B1A7BDCF72382521_B594BC87EA99A279);
    SixteenthStep(0x555555555555555555555555555000000000,
                  0xF991F8D30D1405B2_4B39B8093CEF62AF_B1A7BDCF72382521_B594BC87EA99A279,
                  0xCC44649ADBDFC979_6730081780842F93_3BF4F0A055A63147_8E5CEFE1B92BD342,
                  0xAE876EDF78D157EA_D9B4340702B1CCD6_1BB6CCE528A7281B_790021F4CF98338B,
                  0xBCC60117427E82F3_F6E454899147D988_CCD2B8CAD4556DD5_3A725923120921E4,
                  0x2AA60FFE9942302B_98F9FEAF0611154D_0D74871F1A57FFE5_EFE2E90C3BCA841B);
    SixteenthStep(0x5555555555555555555555555550000000000,
                  0x2AA60FFE9942302B_98F9FEAF0611154D_0D74871F1A57FFE5_EFE2E90C3BCA841B,
                  0x8B8BCCD6E3736C47_029ABA1401858E5C_EDA0B1907F4C20BC_8638E182CA2B8438,
                  0xE44C19707E302F6D_7840C16423FF67D0_15216E7009D1E2F4_6386FCCE6125433A,
                  0xE54A129F2F186AC0_943726ABD93CA26D_5CA1649FFCFC8C2C_FE09D09E53B9B7E8,
                  0x22BAB4A0394D513A_A28CDE7BC00589DF_8145121FAF31C60F_5A3EF135F41650E5);
    SixteenthStep(0x55555555555555555555555555500000000000,
                  0x22BAB4A0394D513A_A28CDE7BC00589DF_8145121FAF31C60F_5A3EF135F41650E5,
                  0x98AC8CAB6D81EE86_C131D69006E9C256_F26D4072F35F74F3_DFA55A6B6AA6F23C,
                  0x576043D6709E6C12_D75CFF45E4C66E03_E76D70852E099E5E_B43359D032F085E4,
                  0x1FAF3804B2192ADB_57CBB1CF9D62354E_B280DB1CF75F5145_ACC140CA0F3B2D02,
                  0xC1B332EB78D9FCB9_C561C6D8E02C99AA_96F12AE3B6266C22_86FA1553A51B716C);
    SixteenthStep(0x555555555555555555555555555000000000000,
                  0xC1B332EB78D9FCB9_C561C6D8E02C99AA_96F12AE3B6266C22_86FA1553A51B716C,
                  0x2B6129453E8B7040_88810BFA7152D1AA_708595B8FFE41FC5_2D039F210FEB9286,
                  0x1A840134A9B7435A_9DD586CE49A68F92_7C658908DC45650E_DA0E7EB65CF52B94,
                  0xCEAF058AFA6BF812_0E0965CB0F816154_A5BA588EA07DBCA0_420D75FB79B8DE7D,
                  0xF04200E1241E4A60_6945602433E6A1E4_DFA1CB31D6CAF2AA_F6C8637E968B09EF);
    SixteenthStep(0x5555555555555555555555555550000000000000,
                  0xF04200E1241E4A60_6945602433E6A1E4_DFA1CB31D6CAF2AA_F6C8637E968B09EF,
                  0x20C770F9182B13D5_FD73733355DC49A0_6CE5F151D9AF5D44_AD69253BC26F7101,
                  0x16C1C1B8CCFDED81_3B36ACED47BA50C3_B6E27EA647C01010_CE425A0935E1776A,
                  0x9E30186173DADCAD_6089D524EAFA62C4_80F35AF9803C8E48_610A084985D4A2C7,
                  0x43EB6A3B0A379C98_0BC0A415530CDEDF_AF102A2FA28030C2_EE5AD5F9937C4F4B);
  }

  lemma Fives55()
    ensures At(0x5555555555555555555555555555555555555555555555555555555,
               0x0974879FCFD0E005_70A5670931FA8222_447AD62CA0C094D2_63383C170374AF45)
  {
    hide At;
    SmallPowers();
    Fives27();
    Fives27Shifted();
    SixteenthStep(0x55555555555555555555555555500000000000000,
                  0x43EB6A3B0A379C98_0BC0A415530CDEDF_AF102A2FA28030C2_EE5AD5F9937C4F4B,
                  0xF88387CF56F521B7_6A60649BC55BB46D_47884499FC230268_16928DDFE8667725,
                  0x53ACA46AC4BF0AD7_E54BDB13D7C39870_193A1C0FEFEB7A88_9B7C86980FD9E5F1,
                  0x6958A95A8679B21B_40905C089FC04FB6_AFAA211E26F92115_9DE26DA41FDF017D,
                  0x8711A0E5A90B5718_5C6BA46B03CB56AD_0364CB59FC2EB410_B689A2A6EC6CB319);
    SixteenthStep(0x555555555555555555555555555000000000000000,
                  0x8711A0E5A90B5718_5C6BA46B03CB56AD_0364CB59FC2EB410_B689A2A6EC6CB319,
                  0x35DB9FFDFE7492F2_34BA406879C21EC5_E81DA5797E9B5864_AE549F683E04C880,
                  0x172ADB0B106FD747_BA41849A666FD15D_9B91935A221DEF92_D459FEF125D9B1EF,
                  0x76678F443EA9B45F_85177547C0519802_CC29B4BB61F4039C_4BF31F529B95549B,
                  0xD239917EAFFAE81B_362F3A96164A75EB_50558FAFAC699CB3_35EC890A7B4B4330);
    SixteenthStep(0x5555555555555555555555555550000000000000000,
                  0xD239917EAFFAE81B_362F3A96164A75EB_50558FAFAC699CB3_35EC890A7B4B4330,
                  0x4906445C7AE73D42_1359C3FC3B01D6BA_7F49A05779FAE3D4_F4BCDEBBAFAC358B,
                  0x5F0F63EE2B921140_F1ED2A4B97930ADA_1A23242CB40EF88C_423BD1650BC4CCAF,
                  0x676D24CC0F14ABB2_C49B23B7C41504C5_3B60D456276F9AA0_CB478BABEF6B61EF,
                  0x585147B02071E9AC_A0418F9BB095E784_9A177B6D1F975470_386840C5CFA0CA4F);
    SixteenthStep(0x55555555555555555555555555500000000000000000,
                  0x585147B02071E9AC_A0418F9BB095E784_9A177B6D1F975470_386840C5CFA0CA4F,
                  0xDED1CCE3B7F7092B_8FE5657CA3DF850B_9DD2A17C6E24DC1E_2E0A37879EBA0685,
                  0xB65EFC92606F206A_092F74FB4CBF45E0_9632D97B915FE283_8CDA5D964A8D10B9,
                  0x7D208AB92A8DF513_792780F0EBFCC80B_38935A8F05F54376_64D032674C289057,
                  0xDFBFC7C3A5485E66_3533147E30043609_044222E11CA9E9D0_5449E09824241F83);
    SixteenthStep(0x555555555555555555555555555000000000000000000,
                  0xDFBFC7C3A5485E66_3533147E30043609_044222E11CA9E9D0_5449E09824241F83,
                  0x1F80AF632CC833BD_B012C88AB2CEFCB4_D90947142F17C4FD_66DDC32909BC831F,
                  0x8BDA4ADAA6A93419_B991C14F63F9DB18_B062F420FC131ACC_2A7055D794C7A447,
                  0x3988B79AE759176C_E6DA9ABF0C16C1C1_D0465CCFCC815892_780364FCB2A13125,
                  0x27DF2494C9F43342_341FD4AFF23BD886_B77CA27F9286DC11_3F4C83B099EE5B85);
    SixteenthStep(0x5555555555555555555555555550000000000000000000,
                  0x27DF2494C9F43342_341FD4AFF23BD886_B77CA27F9286DC11_3F4C83B099EE5B85,
                  0x433D3DEFF35F7D7F_82906950388E4475_1DD67D460C954C72_28730B5AE01B626A,
                  0x06A5CFEA4CE14AEF_2DAE329DD3675BF1_F568C45018EDBE4A_D1FA8725F8E20ECF,
                  0x96BA2CFE77542716_F708EC856529DD42_3EF9F36152E19EEB_B7C7EDA756785903,
                  0xE60B2D3F8E99547B_1BB8D1DC2BF10722_6AF8DE0A16CA2FFC_B370C5FF4D17273C);
    SixteenthStep(0x55555555555555555555555555500000000000000000000,
                  0xE60B2D3F8E99547B_1BB8D1DC2BF10722_6AF8DE0A16CA2FFC_B370C5FF4D17273C,
                  0xE2249D7B3DA97597_69BEF895FAF49090_6317D6838133F931_D78C11F95F30488E,
                  0x753C66293EB77E94_AD7068B9CB9652B8_CCAE3492F60D1B49_B96377A4884D646B,
                  0xCE812861E805C7FF_F172C3372EA25411_4BD76D1F356EC3C0_B8FED502A6322A87,
                  0x626BE23B785F4E17_1F1CAFD896AD7D1F_952EA9A35F0AEB05_08784B8F69761560);
    SixteenthStep(0x555555555555555555555555555000000000000000000000,
                  0x626BE23B785F4E17_1F1CAFD896AD7D1F_952EA9A35F0AEB05_08784B8F69761560,
                  0x5ED5DB0A96ECDE3C_A13D9622C551B8E4_31F2547E371AFD66_72B7B353BB83E430,
                  0x764BB99833DBAEED_74B65E7C5B9EE096_A963DD90B58310A4_20D6F867AF213803,
                  0xAFD0FA82031980F4_239B595D694FD839_99C8EF44F554C3E5_E0D48F092F08CEAF,
                  0x6A38C417C03E0895_25830A0B8BBB1D19_A419D9D2193E1244_3F34268044076B07);
    SixteenthStep(0x5555555555555555555555555550000000000000000000000,
                  0x6A38C417C03E0895_25830A0B8BBB1D19_A419D9D2193E1244_3F34268044076B07,
                  0x78EB18529C6A8209_60BEC9C1F588F2BA_836EE17877DB9A99_76E8ECB085CB6146,
                  0x6573FA301C9739CB_21BBA0D413B8BCAB_1F3A4A85F7FE1CE9_ADBA82A7973FAB86,
                  0xA540E1B4A9CBAD02_132E0B7B31D5C3B5_7CC81417527D2279_4CE81B89129860DE,
                  0x10992B091AD8934B_4B654B48A48080E2_5D5E37E0E363A66B_B3780B480BE29259);
    SixteenthStep(0x55555555555555555555555555500000000000000000000000,
                  0x10992B091AD8934B_4B654B48A48080E2_5D5E37E0E363A66B_B3780B480BE29259,
                  0x59E51CE61E1D86D6_EA26209E3594F28B_78116616A44C6128_A5F7E12F8F032CE4,
                  0xD10C32E1AE5EE3F1_2670CCE1DA191C94_E92E96C6EC6C9A32_B3E800AA4622C1B5,
                  0x01C1C2D022660A46_31E6142CAF9F64D0_02763ABB64648794_B8196D9EE12D3696,
                  0x6CE6B1D51EA57C4A_C080E919BBEAB9DD_5923E68CCADEF29A_CB9F501AD04B1E67);
    SixteenthStep(0x555555555555555555555555555000000000000000000000000,
                  0x6CE6B1D51EA57C4A_C080E919BBEAB9DD_5923E68CCADEF29A_CB9F501AD04B1E67,
                  0x997779056B1CEED0_992C2A3C60114731_5C3394152471D2D0_CD95A1B98DA39F4D,
                  0x7F11F45EEC881DA8_02A459D4EA1FCC74_76D2D8EDC259E4AC_8E78791B864EF37A,
                  0xB42BE1A044911D93_BA985C32050074DC_248534D25705197E_FD25D48558E3E232,
                  0xF1D49DF3586CB654_5A3E154C23A15856_4D73CEA307153EB2_51E2FAC86C533915);
    SixteenthStep(0x5555555555555555555555555550000000000000000000000000,
                  0xF1D49DF3586CB654_5A3E154C23A15856_4D73CEA307153EB2_51E2FAC86C533915,
                  0x59239A442C53B849_665CEFDABFD56633_913A7AC06324162B_71AA0155139CC4B0,
                  0xD1CC2E5F08452C6B_6B738BCCB8BA9331_5BA0569F5FD9C9AC_141A3B881445B71F,
                  0xE1178E73DC1F113F_69EC8736B7B2F0EF_6A3A4563F8E2419F_604B9B5B89A9470E,
                  0xB20A2513C23A03B8_3B82BE5FAE115DDE_54281D0C6556D4D5_AB6360EED1165B9C);
    SixteenthStep(0x55555555555555555555555555500000000000000000000000000,
                  0xB20A2513C23A03B8_3B82BE5FAE115DDE_54281D0C6556D4D5_AB6360EED1165B9C,
                  0xCA39C6FA3CCE319E_5AF416DE26CA0B50_B94C4FC83CFCF84C_C1B69362E9EEFA49,
                  0x5EA43977F10BD964_73BBA8EEE59F797D_362668B902BE0246_3E17F0F1FBBE42EA,
                  0x4906DCF8F9DB4701_F0DA1AF4AF1AAD80_8DD1FCC51DD0AC9C_6EBCFDF53D1C453B,
                  0x0AB5E1643F579125_E78A082CCDCB2417_77A0B124CD5E1AFE_58E65C10EC854906);
    MultiplyStep(0x555555555555555555555555555000000000000000000000000000,
                 0x0AB5E1643F579125_E78A082CCDCB2417_77A0B124CD5E1AFE_58E65C10EC854906,
                 0x555555555555555555555555555, 0x150D725F22361575_22581AF8531AD628_45EFF3468908C3FE_FAAC71006FDE27AE,
                 0x5B8C397E66B3ABEB_C483D0BAE0BCD771_9CE9D242C22B4586_B4AA0C4A1C3B8D5A);
    SixteenthStep(0x555555555555555555555555555555555555555555555555555555,
                  0x5B8C397E66B3ABEB_C483D0BAE0BCD771_9CE9D242C22B4586_B4AA0C4A1C3B8D5A,
                  0xEE2F299392417E9A_0F92247FBEC3EC70_3C764D324D7417B0_DC30A8C088BAE4CF,
                  0xF1A18A93E3C099D2_DAEF0710BEA83252_85B3E6D3AD3F462C_36967EA2160D6463,
                  0x88F97F0C9358B836_381263FF6713F5B5_2D2D110FB5B6C83D_28E2ADE9429934F7,
                  0x5FEDD253BFF7F5DF_6F2793D54E0B64C7_DE74A32E22623BBA_E571F5E95AE72117);
    MultiplyStep(0x5555555555555555555555555555555555555555555555555555550,
                 0x5FEDD253BFF7F5DF_6F2793D54E0B64C7_DE74A32E22623BBA_E571F5E95AE72117,
                 0x5, 0xFFFFFFFFFFFFFFFF_FFFFFFFFFFFFFFFF_FFFFFFFFFFFFFFFF_FFFFFFFEFFFFBA88,
                 0x0974879FCFD0E005_70A5670931FA8222_447AD62CA0C094D2_63383C170374AF45);
  }

  /** The digits that follow the fives. */
  lemma LastDigits()
    ensures At(0x55555555555555555555555555555555555555555555555555555554fffffeba,
               0x7AE96A2B657C0710_6E64479EAC3434E9_9CF0497512F58995_C1396C28719501EE)
  {
    hide At;
    SmallPowers();
    Fives55();
    SixteenthStep(0x5555555555555555555555555555555555555555555555555555555,
                  0x0974879FCFD0E005_70A5670931FA8222_447AD62CA0C094D2_63383C170374AF45,
                  0x91A322CF35159167_BAF1D6949C3F61C2_3A63F0C0F45AECEC_FCBFBA5A9F6366A5,
                  0xB09F83A45E0BD599_BFCC8755CD3581AC_0C168F1C15BDD03E_714BE09E7B82CD60,
                  0x605F6ABE5FFE71FF_2FAB07790F989555_0F5E9FA1758CE0F6_35385B1890A7E231,
                  0x662624156D5C0224_B1D0DC8566D1DCBF_74BF10BB47E8C662_0DF7C954A3BE73CD);
    MultiplyStep(0x55555555555555555555555555555555555555555555555555555550,
                 0x662624156D5C0224_B1D0DC8566D1DCBF_74BF10BB47E8C662_0DF7C954A3BE73CD, 4,
                 0x961,
                 0x0BB86CF6ABF01A27_B7E43F2956475FA5_F3FBEC7D6E2C9DA5_00F74691BD4A5DCB);
    SixteenthStep(0x55555555555555555555555555555555555555555555555555555554,
                  0x0BB86CF6ABF01A27_B7E43F2956475FA5_F3FBEC7D6E2C9DA5_00F74691BD4A5DCB,
                  0x374296F7DC092BAA_B1F4F70213B5CB14_EC834BD4F092FB58_CAF4F3C1BEE423BA,
                  0x6DBEA11F49AD2246_2732513D78AE2991_AAEF738F412B6176_AE31033D95CF9BC2,
                  0x457B50DF04172016_CC387B686BA3B01F_247E868AB654C701_441F5211B6E3163D,
                  0x74A07C2E143E0491_B01F1A70DE530490_13FB83BFA47974CC_E7FB054094ED2D59);
    MultiplyStep(0x555555555555555555555555555555555555555555555555555555540,
                 0x74A07C2E143E0491_B01F1A70DE530490_13FB83BFA47974CC_E7FB054094ED2D59, 15,
                 0xFFFFFFFFFFFFFFFF_FFFFFFFFFFFFFFFF_FFFFFFFFFFFFFFFF_FFFFFBAD9F4857F8,
                 0xB5BE5A3CCF4DFE89_5DFC425E821D6FD6_98A2A561331AFF39_F820FF2376A472E1);
    SixteenthStep(0x55555555555555555555555555555555555555555555555555555554f,
                  0xB5BE5A3CCF4DFE89_5DFC425E821D6FD6_98A2A561331AFF39_F820FF2376A472E1,
                  0x1CA156D119B47B66_0615E4D1632D8DC3_A67924E27B572B4E_81F34C18E561BD3E,
                  0x5CC829F31CC797BF_D6D2B8B105CD337E_D596A1A57BC5A23B_5BA9EBFD7EFB5DB1,
                  0x625F9C9C01D1DAA9_A9BFC24068331861_8511E767BADEB8FF_3321AAED70DA07EB,
                  0x1EEFDC65BBF92DF3_AD845480F2D5EA17_225F74F03E59EF0C_BD3D3440621877F9);
    MultiplyStep(0x55555555555555555555555555555555555555555555555555555554f0,
                 0x1EEFDC65BBF92DF3_AD845480F2D5EA17_225F74F03E59EF0C_BD3D3440621877F9, 15,
                 0xFFFFFFFFFFFFFFFF_FFFFFFFFFFFFFFFF_FFFFFFFFFFFFFFFF_FFFFFBAD9F4857F8,
                 0x9F80508DC9939B9C_01DA002C689EC3EE_A544D6857F48B642_A2EAEC2B5F373A8B);
    SixteenthStep(0x55555555555555555555555555555555555555555555555555555554ff,
                  0x9F80508DC9939B9C_01DA002C689EC3EE_A544D6857F48B642_A2EAEC2B5F373A8B,
                  0x8EDF31451FD1BA12_E699F844E3B56A1D_38955EB969A7B8FA_8F15A920064762B2,
                  0x3E85EFB4F9E1BB62_C794EDEC73260A91_DD9B988E0BAA59F2_658826D7914B22CE,
                  0x5719186092E6ADF0_AE5C5B66850FD4D8_A4DD6B60723A28DB_2BC7E8CAF2F55F83,
                  0x4F6AEFBF58586472_B821DB0D888197F4_A2E3A945DF6ADA7B_A73835C6016786EB);
    MultiplyStep(0x55555555555555555555555555555555555555555555555555555554ff0,
                 0x4F6AEFBF58586472_B821DB0D888197F4_A2E3A945DF6ADA7B_A73835C6016786EB, 15,
                 0xFFFFFFFFFFFFFFFF_FFFFFFFFFFFFFFFF_FFFFFFFFFFFFFFFF_FFFFFBAD9F4857F8,
                 0xF5FD0943C77815A1_DF273012312C2B45_97B207CF355A1DF3_64EF61AD882FC6CB);
    SixteenthStep(0x55555555555555555555555555555555555555555555555555555554fff,
                  0xF5FD0943C77815A1_DF273012312C2B45_97B207CF355A1DF3_64EF61AD882FC6CB,
                  0x3DD0136F31A0AF7C_A8D5B7C4BAB52159_EB6E7D9C2EE83952_6264295603394DA3,
                  0x7C8721774347A09C_E6AE544C977F1500_BB6E3AA46C40AA14_D82589451D93E3EE,
                  0x6BE924A23822AD3E_F26D79730982397B_4F470707698F4453_96C94FC480E34954,
                  0xFDFF099C1E474C20_1B9D380B0742D331_C43ED4C1E4EF9045_2C9570C10625E648);
    MultiplyStep(0x55555555555555555555555555555555555555555555555555555554fff0,
                 0xFDFF099C1E474C20_1B9D380B0742D331_C43ED4C1E4EF9045_2C9570C10625E648, 15,
                 0xFFFFFFFFFFFFFFFF_FFFFFFFFFFFFFFFF_FFFFFFFFFFFFFFFF_FFFFFBAD9F4857F8,
                 0xF058F3F52AFC7967_CF450B32EBF98CF6_9BB1DBBED4E51203_6FE9DA17AC73B650);
    SixteenthStep(0x55555555555555555555555555555555555555555555555555555554ffff,
                  0xF058F3F52AFC7967_CF450B32EBF98CF6_9BB1DBBED4E51203_6FE9DA17AC73B650,
                  0xEC8F99E90270B3A9_5FE07250181B1C1A_75285E5C674F9B3F_51A60EDD27B5CE88,
                  0xF63A01D30858950F_CA0C4F5C552BC5DB_775BE9DF564799F3_9E7BF180976FA234,
                  0xF5F32EF281849BC6_456D361C965245AB_DE56D6D546F9031E_694DD7A52C4670B7,
                  0x31510A0EA6F083A8_EB21DDB530CC37F0_B803991BCDFEAFF5_AA594C4F492EF1BD);
    MultiplyStep(0x55555555555555555555555555555555555555555555555555555554ffff0,
                 0x31510A0EA6F083A8_EB21DDB530CC37F0_B803991BCDFEAFF5_AA594C4F492EF1BD, 15,
                 0xFFFFFFFFFFFFFFFF_FFFFFFFFFFFFFFFF_FFFFFFFFFFFFFFFF_FFFFFBAD9F4857F8,
                 0x39E9A07BAAE0BCA2_B9615DCF26AD0065_20AF049F619E2B94_14BC19D0207606C0);
    SixteenthStep(0x55555555555555555555555555555555555555555555555555555554fffff,
                  0x39E9A07BAAE0BCA2_B9615DCF26AD0065_20AF049F619E2B94_14BC19D0207606C0,
                  0x6A8391E4A78E42D0_926A214B2B1E388A_8985436EEAC9A775_4711710C38069D73,
                  0x8C710683E52E5DDE_49D46EF0E2537740_B12BD8E552189F0E_01788DBD25ADC141,
                  0xCFD02B71D21F58F4_10BDC227F1E88081_495F3D8655B3C751_20B3B9EF6AAE24C5,
                  0xFE6C647452554235_50C194414880DF0C_8694A1546C070425_4CC3530E804604D1);
    MultiplyStep(0x55555555555555555555555555555555555555555555555555555554fffff0,
                 0xFE6C647452554235_50C194414880DF0C_8694A1546C070425_4CC3530E804604D1, 14,
                 0x0000009DE93ECE51,
                 0x6A8687A9BE6284B5_1C6215E698EF76DD_57EB11FCDB3EA1FA_6221B7545705FF31);
    SixteenthStep(0x55555555555555555555555555555555555555555555555555555554fffffe,
                  0x6A8687A9BE6284B5_1C6215E698EF76DD_57EB11FCDB3EA1FA_6221B7545705FF31,
                  0x92E0E9F3BEA01CB1_7D36F66C347A3669_859BB7DEB0338411_44B936A7FD83AE71,
                  0xCC84B740D537B974_0AFD0B7E3AFA7AA5_6DA156A708E1CDC3_244E6B6C08735B4B,
                  0xB04E8A3F078EDB53_280AED55CAD220C6_5F1F1731844C7E03_13BBB58C13452E13,
                  0x6CD31BD87B428862_8B949B7037FC1458_A7009CF7EBD482E0_2D6159C42548974C);
    MultiplyStep(0x55555555555555555555555555555555555555555555555555555554fffffe0,
                 0x6CD31BD87B428862_8B949B7037FC1458_A7009CF7EBD482E0_2D6159C42548974C, 11,
                 0xFFFFFFFFFFFFFFFF_FFFFFFFFFFFFFFFF_FFFFFFFFFFFFFFFF_FFFFFFFE8A245F98,
                 0x67FBCDF30A8D2DA5_DA09D4BF71BFD4AD_881D7771FB61E1CF_46F09CB3675B5608);
    SixteenthStep(0x55555555555555555555555555555555555555555555555555555554fffffeb,
                  0x67FBCDF30A8D2DA5_DA09D4BF71BFD4AD_881D7771FB61E1CF_46F09CB3675B5608,
                  0x9B4F8C679700892F_03E3AB3A9815874D_16763336454043BA_8A79A6CA45ABBC7B,
                  0x967A69B77896814F_3EA881ECD2CDFA7A_939FBF295A6D9633_93C0027498A6F3BE,
                  0xE5CF07514B5F6B47_12835D54457F5B12_E2D34755AB9A1D3C_E7CB031C366E03B0,
                  0xED6D9EF40B22CCFA_D967CE1F100C8470_48D3602C51C5A017_DB32EE3A7CC12E12);
    MultiplyStep(0x55555555555555555555555555555555555555555555555555555554fffffeb0,
                 0xED6D9EF40B22CCFA_D967CE1F100C8470_48D3602C51C5A017_DB32EE3A7CC12E12, 10,
                 0x10D63AF1,
                 0x7AE96A2B657C0710_6E64479EAC3434E9_9CF0497512F58995_C1396C28719501EE);
  }

  /** The power of -7 that would be 1 if it were a cube. */
  lemma PowerOfMinusSeven()
    ensures At((P - 1) / 3, 0x7AE96A2B657C0710_6E64479EAC3434E9_9CF0497512F58995_C1396C28719501EE)
  {
    hide At;
    LastDigits();
  }

  // ---------------------------------------------------------------- no point has y = 0

  lemma Thirds()
    ensures P - 1 == 3 * ((P - 1) / 3)
  {
  }

  /** A cube to the power (P - 1) / 3 is 1, by Fermat's little theorem. */
  lemma CubeGivesOne(x: nat)
    requires Prime(P) && Pow(x, 3) % P == P - 7
    ensures At((P - 1) / 3, 1)
  {
    hide Pow, Prime;
    var k := (P - 1) / 3;
    Thirds();
    if x % P == 0 {
      PowMod(x, 3, P);
      ZeroCubed();
    } else {
      Fermat(P, x);
      PowMul(x, 3, k);
      PowMod(Pow(x, 3), k, P);
    }
  }

  lemma ZeroCubed()
    ensures Pow(0, 3) % P == 0
  {
  }

  /** x^3 + 7 is never 0 on secp256k1. */
  lemma RhsIsNotZero(x: nat)
    requires Prime(P)
    ensures Rhs(x, P) != 0
  {
    hide Pow, Prime, At;
    PowerOfMinusSeven();
    if Rhs(x, P) == 0 {
      CubeGivesOne(x);
      AtIsOne((P - 1) / 3, 1, 0x7AE96A2B657C0710_6E64479EAC3434E9_9CF0497512F58995_C1396C28719501EE);
    }
  }

  lemma AtIsOne(e: nat, r: nat, s: nat)
    requires At(e, r) && At(e, s)
    ensures r == s
  {
  }

  /** So the y that decompression returns is always a field element, and never 0: the answer is a point. */
  lemma DecompressedIsPoint(c: Digits)
    requires Prime(P)
    ensures Decompress(c).Key? ==>
              var x, y := Be(Decompress(c).x, 256), Be(Decompress(c).y, 256);
              x < P && 0 < y < P && OnCurve(x, y, P) && y % 2 == c[0] % 2
  {
    hide Pow, Rhs, OnCurve, Be, FixedBytes, SolveY, Prime;
    PFits();
    if !Decompress(c).Key? { return; }
    var x := Be(c[1..], 256);
    var y := SolveY(c[0] % 2, x, P).value;
    AnswerOnCurve(c[0] % 2, x, P);
    RhsIsNotZero(x);
    AnswerIsReduced(c[0] % 2, x, P);
    AnswerIsNotZero(x, y);
    FixedBytesValue(x, 32);
    FixedBytesValue(y, 32);
  }

  lemma AnswerIsNotZero(x: nat, y: nat)
    requires OnCurve(x, y, P) && Rhs(x, P) != 0
    ensures y != 0
  {
    Square(0);
  }
}
