/** The key tables the firmware ships, in parts that keep membership cheap to decide, and what they make
    of the keys whose numbers are stored with another type than that of their class. */
module ShippedKeys {
  import opened Basics
  import opened Decimal
  import opened Settings

  const KEYS_1: seq<string> := [
    "run", "confVersion", "deviceId", "deviceIdOp", "nukiId", "nukidOp", "mqttbroker", "mqttport", "mqttuser",
    "mqttpass", "mqttlog", "checkupdates"
  ]

  const KEYS_2: seq<string> := [
    "websrvena", "lockena", "lockpin", "mqttpath", "openerena", "openerpin", "openercont", "maxkpad",
    "opmaxkpad", "updateTime", "timeServer", "maxtc"
  ]

  const KEYS_3: seq<string> := [
    "opmaxtc", "enabtlprst", "hassdiscovery", "hassConfigUrl", "buffsize", "dhcpena", "ipaddr", "ipsub",
    "ipgtw", "dnssrv", "nwhw", "httpdAuthType"
  ]

  const KEYS_4: seq<string> := [
    "geminiPin", "rssipb", "hostname", "nettmout", "restdisc", "hybridRbtLck", "rstbcn", "lockStInterval",
    "tcPerEntry", "kpPerEntry", "configInterval", "batInterval"
  ]

  const KEYS_5: seq<string> := [
    "kpInterval", "kpCntrlEnabled", "kpInfoEnabled", "kpPubCode", "tcCntrlEnabled", "tcInfoEnabled",
    "cnfInfoEnabled", "regAsApp", "regOpnAsApp", "nrRetry", "rtryDelay", "crdusr"
  ]

  const KEYS_6: seq<string> := [
    "crdpass", "disnonjson", "pubAuth", "pubdbg", "mqttSSLena", "enadbg", "offHybrid", "hybridTimer",
    "hybridAct", "hybridRtry", "tsksznetw", "tsksznuki"
  ]

  const KEYS_7: seq<string> := [
    "authmaxentry", "kpmaxentry", "tcmaxentry", "updMqtt", "showSecr", "bleTxPwr", "weblog", "nwbestrssi",
    "geminiena", "ntwMDC", "ntwCLK", "ntwPHY"
  ]

  const KEYS_8: seq<string> := [
    "ntwADDR", "ntwIRQ", "ntwRST", "ntwCS", "ntwSCK", "ntwMISO", "ntwMOSI", "ntwPWR", "ntwMDIO", "maxauth",
    "opmaxauth", "authCtrlEna"
  ]

  const KEYS_9: seq<string> := [
    "authPerEntry", "authInfoEna", "authmaxentry", "wifiSSID", "wifiPass", "kpChkEna", "disNtwNoCon", "hassena",
    "hassdevdisc", "retGpio", "dbgConnect", "dbgCommu"
  ]

  const KEYS_10: seq<string> := [
    "dbgReadData", "dbgHexData", "dbgCommand", "lckForceId", "lckForceDrsns", "lckForceKp", "opForceId",
    "opForceKp", "nukihubId", "duoHost", "duoIkey", "duoSkey"
  ]

  const KEYS_11: seq<string> := [
    "duoUser", "duoena", "httpsFQDN", "credBypass", "credLf", "credLfRmbr", "credLfDuo", "credLfDuoRmbr",
    "duoApprove", "bypassBtBtn", "bypassHigh", "bypassLow"
  ]

  const KEYS_12: seq<string> := [
    "nhPubConfig", "nhCntrlEnabled", "totpsecret", "credLfTotp", "credLfTotpRmbr", "bypassecret", "adminsecret",
    "bleGenTmOt", "bleCmdTmOt", "frcHstdUpd"
  ]

  const KEYS := KEYS_1 + KEYS_2 + KEYS_3 + KEYS_4 + KEYS_5 + KEYS_6
                + KEYS_7 + KEYS_8 + KEYS_9 + KEYS_10 + KEYS_11 + KEYS_12

  const REDACTED_1: seq<string> := [
    "mqttuser", "mqttpass", "crdusr", "crdpass", "nukiId", "nukidOp", "wifiPass", "geminiPin"
  ]

  const REDACTED_2: seq<string> := [
    "duoHost", "duoIkey", "duoSkey", "duoUser", "credBypass", "totpsecret", "bypassecret", "adminsecret"
  ]

  const REDACTED := REDACTED_1 + REDACTED_2

  const BOOLS_1: seq<string> := [
    "run", "mqttlog", "checkupdates", "lockena", "openerena", "openercont", "tcPerEntry", "kpPerEntry",
    "enabtlprst", "websrvena", "updateTime", "restdisc"
  ]

  const BOOLS_2: seq<string> := [
    "kpCntrlEnabled", "kpInfoEnabled", "kpPubCode", "showSecr", "tcCntrlEnabled", "tcInfoEnabled", "regAsApp",
    "regOpnAsApp", "dhcpena", "pubAuth", "pubdbg", "offHybrid"
  ]

  const BOOLS_3: seq<string> := [
    "hassena", "retGpio", "hybridAct", "hybridRtry", "cnfInfoEnabled", "disnonjson", "updMqtt", "authCtrlEna",
    "authPerEntry", "authInfoEna", "weblog", "hassdevdisc"
  ]

  const BOOLS_4: seq<string> := [
    "kpChkEna", "disNtwNoCon", "nwbestrssi", "bypassBtBtn", "dbgConnect", "dbgCommu", "dbgReadData",
    "dbgHexData", "dbgCommand", "lckForceId", "lckForceDrsns", "lckForceKp"
  ]

  const BOOLS_5: seq<string> := [
    "opForceId", "opForceKp", "mqttSSLena", "hybridRbtLck", "geminiena", "enadbg", "duoena", "duoApprove",
    "nhPubConfig", "nhCntrlEnabled", "frcHstdUpd"
  ]

  const BOOLS := BOOLS_1 + BOOLS_2 + BOOLS_3 + BOOLS_4 + BOOLS_5

  const BYTES: seq<string> := [
    "aclLckOpn", "confLckBasAcl", "confLckAdvAcl", "confOpnBasAcl", "confOpnAdvAcl", "gpiocfg"
  ]

  const INTS_1: seq<string> := [
    "confVersion", "mqttport", "rtryDelay", "hybridTimer", "lockpin", "openerpin", "maxkpad", "opmaxkpad",
    "maxtc", "opmaxtc"
  ]

  const INTS_2: seq<string> := [
    "buffsize", "nwhw", "rssipb", "nettmout", "rstbcn", "lockStInterval", "configInterval", "batInterval",
    "kpInterval", "nrRetry"
  ]

  const INTS_3: seq<string> := [
    "tsksznetw", "tsksznuki", "authmaxentry", "kpmaxentry", "tcmaxentry", "bleTxPwr", "ntwMDC", "ntwCLK",
    "ntwPHY", "ntwADDR"
  ]

  const INTS_4: seq<string> := [
    "ntwIRQ", "ntwRST", "ntwCS", "ntwSCK", "ntwMISO", "ntwMOSI", "ntwPWR", "ntwMDIO", "httpdAuthType", "credLf"
  ]

  const INTS_5: seq<string> := [
    "credLfRmbr", "credLfDuo", "credLfDuoRmbr", "bypassHigh", "bypassLow", "credLfTotp", "credLfTotpRmbr",
    "bleGenTmOt", "bleCmdTmOt"
  ]

  const INTS := INTS_1 + INTS_2 + INTS_3 + INTS_4 + INTS_5

  const UINTS: seq<string> := [
    "deviceId", "deviceIdOp", "nukiId", "nukidOp"
  ]

  const UINT64S: seq<string> := [
    "nukihubId"
  ]

  const SHIPPED := KeyTable(KEYS, REDACTED, BOOLS, BYTES, INTS, UINTS, UINT64S)

  // ---------------------------------------------------------------- classes

  predicate NoTextKey(keys: seq<string>) {
    "maxauth" !in keys && "opmaxauth" !in keys && "geminiPin" !in keys
  }

  predicate NoIntKey(keys: seq<string>) {
    && "maxkpad" !in keys && "opmaxkpad" !in keys && "maxtc" !in keys
    && "opmaxtc" !in keys && "authmaxentry" !in keys
  }

  lemma NoIntKeyInBools1()
    ensures NoIntKey(BOOLS_1)
  {
  }

  lemma NoIntKeyInBools2()
    ensures NoIntKey(BOOLS_2)
  {
  }

  lemma NoIntKeyInBools3()
    ensures NoIntKey(BOOLS_3)
  {
  }

  lemma NoIntKeyInBools4()
    ensures NoIntKey(BOOLS_4)
  {
  }

  lemma NoIntKeyInBools5()
    ensures NoIntKey(BOOLS_5)
  {
  }

  lemma NoTextKeyInBools1()
    ensures NoTextKey(BOOLS_1)
  {
  }

  lemma NoTextKeyInBools2()
    ensures NoTextKey(BOOLS_2)
  {
  }

  lemma NoTextKeyInBools3()
    ensures NoTextKey(BOOLS_3)
  {
  }

  lemma NoTextKeyInBools4()
    ensures NoTextKey(BOOLS_4)
  {
  }

  lemma NoTextKeyInBools5()
    ensures NoTextKey(BOOLS_5)
  {
  }

  lemma NoTextKeyInInts1()
    ensures NoTextKey(INTS_1)
  {
  }

  lemma NoTextKeyInInts2()
    ensures NoTextKey(INTS_2)
  {
  }

  lemma NoTextKeyInInts3()
    ensures NoTextKey(INTS_3)
  {
  }

  lemma NoTextKeyInInts4()
    ensures NoTextKey(INTS_4)
  {
  }

  lemma NoTextKeyInInts5()
    ensures NoTextKey(INTS_5)
  {
  }

  lemma NoTextKeyInUints()
    ensures NoTextKey(UINTS)
  {
  }

  lemma NoTextKeyInUint64s()
    ensures NoTextKey(UINT64S)
  {
  }

  lemma TextClasses()
    ensures ClassOf(SHIPPED, "maxauth") == TextClass
    ensures ClassOf(SHIPPED, "opmaxauth") == TextClass
    ensures ClassOf(SHIPPED, "geminiPin") == TextClass
  {
    NoTextKeyInBools1();
    NoTextKeyInBools2();
    NoTextKeyInBools3();
    NoTextKeyInBools4();
    NoTextKeyInBools5();
    NoTextKeyInInts1();
    NoTextKeyInInts2();
    NoTextKeyInInts3();
    NoTextKeyInInts4();
    NoTextKeyInInts5();
    NoTextKeyInUints();
    NoTextKeyInUint64s();
  }

  lemma IntClasses()
    ensures ClassOf(SHIPPED, "maxkpad") == IntClass
    ensures ClassOf(SHIPPED, "opmaxkpad") == IntClass
    ensures ClassOf(SHIPPED, "maxtc") == IntClass
    ensures ClassOf(SHIPPED, "opmaxtc") == IntClass
    ensures ClassOf(SHIPPED, "authmaxentry") == IntClass
  {
    NoIntKeyInBools1();
    NoIntKeyInBools2();
    NoIntKeyInBools3();
    NoIntKeyInBools4();
    NoIntKeyInBools5();
    assert INTS_1[6] == "maxkpad";
    assert INTS_1[7] == "opmaxkpad";
    assert INTS_1[8] == "maxtc";
    assert INTS_1[9] == "opmaxtc";
    assert INTS_3[2] == "authmaxentry";
  }

  lemma AreExported()
    ensures "maxauth" in KEYS
    ensures "opmaxauth" in KEYS
    ensures "geminiPin" in KEYS
    ensures "maxkpad" in KEYS
    ensures "opmaxkpad" in KEYS
    ensures "maxtc" in KEYS
    ensures "opmaxtc" in KEYS
    ensures "authmaxentry" in KEYS
  {
    assert KEYS_8[9] == "maxauth";
    assert KEYS_8[10] == "opmaxauth";
    assert KEYS_4[0] == "geminiPin";
    assert KEYS_2[7] == "maxkpad";
    assert KEYS_2[8] == "opmaxkpad";
    assert KEYS_2[11] == "maxtc";
    assert KEYS_3[0] == "opmaxtc";
    assert KEYS_7[0] == "authmaxentry";
  }

  // ---------------------------------------------------------------- what comes back

  /** The shipped keys whose number is stored with another type than that of their class: high-water
      counts of authorization entries and the PIN under a text class, and high-water counts of keypad
      codes and time controls, stored unsigned, under the integer class. */
  const AS_TEXT := {"maxauth", "opmaxauth", "geminiPin"}
  const AS_INT := {"maxkpad", "opmaxkpad", "maxtc", "opmaxtc"}

  lemma ClassOfText(key: string)
    requires key in AS_TEXT
    ensures ClassOf(SHIPPED, key) == TextClass
  {
    TextClasses();
  }

  lemma ClassOfInt(key: string)
    requires key in AS_INT
    ensures ClassOf(SHIPPED, key) == IntClass
  {
    IntClasses();
  }

  lemma RetypedClass(key: string)
    requires key in AS_TEXT + AS_INT
    ensures key in KEYS
    ensures key in AS_TEXT ==> ClassOf(SHIPPED, key) == TextClass
    ensures key in AS_INT ==> ClassOf(SHIPPED, key) == IntClass
  {
    AreExported();
    if key in AS_TEXT {
      ClassOfText(key);
    }
    if key in AS_INT {
      ClassOfInt(key);
    }
  }

  /** None of them survives a round trip through the shipped tables: the first come back as text, the
      others signed, and as zero from 2^31 on. */
  lemma RetypedDoNotSurvive(redacted: bool, source: Store, target: Store, key: string, w: Width, n: int)
    requires key in AS_TEXT + AS_INT && !Skipped(SHIPPED, redacted, key)
    requires Lookup(source, key) == Some(Number(w, n)) && (key in AS_INT ==> w == U32)
    ensures var after := Lookup(Import(SHIPPED, Export(SHIPPED, redacted, source), target), key);
            && after != Lookup(source, key)
            && (key in AS_TEXT ==> after == Some(Text(PrintInt(n))))
            && (key in AS_INT ==> after == Some(Number(I32, if InRange(Number(I32, n)) then n else 0)))
  {
    RetypedClass(key);
    NumberComesBack(SHIPPED, redacted, source, target, key, w, n);
  }

  /** A count of these that is read at the start is lost by every import of a document that names it. */
  lemma RetypedCountReadsZero(doc: Document, store: Store, key: string)
    requires key in AS_TEXT + AS_INT && key in doc
    ensures GetUInt(Import(SHIPPED, doc, store), key) == 0
  {
    RetypedClass(key);
    ImportedCountReadsZero(SHIPPED, doc, store, key);
  }

  /** The number of log entries and the number of authorization entries are settings under one key, and
      the integer table lists it: as a signed number it survives. */
  lemma SharedKeySurvives(redacted: bool, source: Store, target: Store, n: int)
    requires Lookup(source, "authmaxentry") == Some(Number(I32, n)) && InRange(Number(I32, n))
    ensures Lookup(Import(SHIPPED, Export(SHIPPED, redacted, source), target), "authmaxentry") == Some(Number(I32, n))
  {
    IntClasses();
    AreExported();
    SharedKeyIsNotRedacted();
    NumberComesBack(SHIPPED, redacted, source, target, "authmaxentry", I32, n);
  }

  lemma SharedKeyIsNotRedacted()
    ensures !Skipped(SHIPPED, false, "authmaxentry") && !Skipped(SHIPPED, true, "authmaxentry")
  {
    assert "authmaxentry" !in REDACTED_1;
    assert "authmaxentry" !in REDACTED_2;
  }

  // ---------------------------------------------------------------- what an export leaves out

  lemma PasswordsAreRedacted()
    ensures "mqttpass" in KEYS && "wifiPass" in KEYS && "crdpass" in KEYS
    ensures "mqttpass" in REDACTED && "wifiPass" in REDACTED && "crdpass" in REDACTED
  {
    assert KEYS_1[9] == "mqttpass";
    assert KEYS_9[4] == "wifiPass";
    assert KEYS_6[0] == "crdpass";
    assert REDACTED_1[1] == "mqttpass";
    assert REDACTED_1[6] == "wifiPass";
    assert REDACTED_1[3] == "crdpass";
  }

  /** Without the flag no export of the shipped keys holds a password. */
  lemma PlainExportHoldsNoPassword(store: Store)
    ensures var doc := Export(SHIPPED, false, store);
            "mqttpass" !in doc && "wifiPass" !in doc && "crdpass" !in doc
  {
    PasswordsAreRedacted();
    ExportHoldsExactly(SHIPPED, false, store);
  }
}
