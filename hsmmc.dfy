/** Platform data of the first S3C high-speed MMC controller
    (arch/arm/plat-s3c/dev-hsmmc.c): the default record
    `s3c_hsmmc0_def_platdata`, the board hook s3c_sdhci0_set_platdata that
    merges a board's record into it, and the card-detect test of
    detect_sdhci0_irq_cd. The record type comes from plat/sdhci.h, which is
    not part of this model; it is modelled with the seven members the
    source sets. */
module Hsmmc {
  import opened Bits

  // Host capabilities of linux/mmc/host.h.
  const MMC_CAP_4_BIT_DATA: U32 := 1
  const MMC_CAP_MMC_HIGHSPEED: U32 := 2
  const MMC_CAP_SD_HIGHSPEED: U32 := 4

  /** The bit of GPN13, the card-detect line, in the GPN data register. */
  const GPN13: U32 := 0x2000

  /** detect_sdhci0_irq_cd on the value `gpndat` read from the GPN data
      register: 1 (a card is present) exactly when GPN13 is low. */
  function DetectSdhci0IrqCd(gpndat: U32): (detect: U32)
    ensures detect == 1 <==> gpndat & GPN13 == 0
    ensures detect == 0 <==> gpndat & GPN13 != 0
    ensures detect == 1 - ((gpndat >> 13) & 1)
  {
    var d := gpndat & GPN13;
    if d == 0 then 1 else 0
  }

  /** Only GPN13 decides the result: every other line of the port may
      take any level. */
  lemma DetectReadsOnlyGpn13(v: U32, w: U32)
    requires v & GPN13 == w & GPN13
    ensures DetectSdhci0IrqCd(v) == DetectSdhci0IrqCd(w)
  {
  }

  /** A function-pointer member: NULL, one of the two hooks of this file,
      or a function `id` supplied by the board. */
  datatype Callback = Null | SetupSdhci0IrqCd | DetectSdhci0IrqCdHook | BoardFn(id: nat)

  /** `struct s3c_sdhci_platdata`: the bus width, the host capabilities,
      the GPIO, card and external card-detect hooks, and the interrupt of
      the external card detect. */
  datatype Platdata = Platdata(maxWidth: U32, hostCaps: U32, cfgGpio: Callback, cfgCard: Callback,
                               cfgExtCd: Callback, detectExtCd: Callback, extCd: U32)

  /** The 4-bit, MMC high-speed and SD high-speed capabilities. */
  const DEFAULT_CAPS: U32 := MMC_CAP_4_BIT_DATA | MMC_CAP_MMC_HIGHSPEED | MMC_CAP_SD_HIGHSPEED

  /** `s3c_hsmmc0_def_platdata`, with `eint13` the interrupt number
      `S3C_EINT(13)` of the machine (mach/irqs.h is not part of this
      model): a 4-bit bus, the default capabilities, no GPIO or card hook,
      and GPN13 as an external card detect. */
  function DefaultPlatdata(eint13: U32): Platdata
  {
    Platdata(maxWidth := 4, hostCaps := DEFAULT_CAPS, cfgGpio := Null, cfgCard := Null,
             cfgExtCd := SetupSdhci0IrqCd, detectExtCd := DetectSdhci0IrqCdHook, extCd := eint13)
  }

  /** A member of the board's record replaces the current one only when it is set. */
  function OverrideWord(incoming: U32, current: U32): U32
  {
    if incoming != 0 then incoming else current
  }

  function OverrideHook(incoming: Callback, current: Callback): Callback
  {
    if incoming != Null then incoming else current
  }

  /** The record s3c_sdhci0_set_platdata leaves in `cur` for the board's
      record `pd`: the bus width always taken from `pd`, every other member
      taken from `pd` when set there. */
  function Merged(cur: Platdata, pd: Platdata): Platdata
  {
    Platdata(maxWidth := pd.maxWidth,
             hostCaps := OverrideWord(pd.hostCaps, cur.hostCaps),
             cfgGpio := OverrideHook(pd.cfgGpio, cur.cfgGpio),
             cfgCard := OverrideHook(pd.cfgCard, cur.cfgCard),
             cfgExtCd := OverrideHook(pd.cfgExtCd, cur.cfgExtCd),
             detectExtCd := OverrideHook(pd.detectExtCd, cur.detectExtCd),
             extCd := OverrideWord(pd.extCd, cur.extCd))
  }

  /** The bus width is taken even when it is 0; every other member changes
      only if the board sets it, and then becomes the board's value. */
  lemma MergedChangesOnlySetMembers(cur: Platdata, pd: Platdata)
    ensures var r := Merged(cur, pd);
      && r.maxWidth == pd.maxWidth
      && (r.hostCaps != cur.hostCaps ==> pd.hostCaps != 0 && r.hostCaps == pd.hostCaps)
      && (r.cfgGpio != cur.cfgGpio ==> pd.cfgGpio != Null && r.cfgGpio == pd.cfgGpio)
      && (r.cfgCard != cur.cfgCard ==> pd.cfgCard != Null && r.cfgCard == pd.cfgCard)
      && (r.cfgExtCd != cur.cfgExtCd ==> pd.cfgExtCd != Null && r.cfgExtCd == pd.cfgExtCd)
      && (r.detectExtCd != cur.detectExtCd ==> pd.detectExtCd != Null && r.detectExtCd == pd.detectExtCd)
      && (r.extCd != cur.extCd ==> pd.extCd != 0 && r.extCd == pd.extCd)
  {
  }

  /** Every member the board sets ends up in the record. */
  lemma MergedTakesSetMembers(cur: Platdata, pd: Platdata)
    ensures var r := Merged(cur, pd);
      && (pd.hostCaps != 0 ==> r.hostCaps == pd.hostCaps)
      && (pd.cfgGpio != Null ==> r.cfgGpio == pd.cfgGpio)
      && (pd.cfgCard != Null ==> r.cfgCard == pd.cfgCard)
      && (pd.cfgExtCd != Null ==> r.cfgExtCd == pd.cfgExtCd)
      && (pd.detectExtCd != Null ==> r.detectExtCd == pd.detectExtCd)
      && (pd.extCd != 0 ==> r.extCd == pd.extCd)
  {
  }

  /** Applying the same board record twice leaves what applying it once does. */
  lemma MergedIdempotent(cur: Platdata, pd: Platdata)
    ensures Merged(Merged(cur, pd), pd) == Merged(cur, pd)
  {
  }

  /** A board record that sets every member replaces the whole record. */
  lemma MergedFullRecordReplaces(cur: Platdata, pd: Platdata)
    requires pd.hostCaps != 0 && pd.extCd != 0
    requires pd.cfgGpio != Null && pd.cfgCard != Null && pd.cfgExtCd != Null && pd.detectExtCd != Null
    ensures Merged(cur, pd) == pd
  {
  }

  /** A board that sets no capabilities keeps the default 4-bit and
      high-speed capabilities, and one that sets no card-detect hooks keeps
      GPN13 as its card detect. */
  lemma MergedKeepsDefaults(eint13: U32, pd: Platdata)
    ensures pd.hostCaps == 0 ==> Merged(DefaultPlatdata(eint13), pd).hostCaps == DEFAULT_CAPS
    ensures pd.cfgExtCd == Null && pd.detectExtCd == Null && pd.extCd == 0 ==>
      var r := Merged(DefaultPlatdata(eint13), pd);
      r.cfgExtCd == SetupSdhci0IrqCd && r.detectExtCd == DetectSdhci0IrqCdHook && r.extCd == eint13
  {
  }

  /** A `struct s3c_sdhci_platdata` in memory: the global default record,
      or a board's record handed to the hook. */
  class SdhciPlatdata {
    var maxWidth: U32
    var hostCaps: U32
    var cfgGpio: Callback
    var cfgCard: Callback
    var cfgExtCd: Callback
    var detectExtCd: Callback
    var extCd: U32

    /** The record's current contents. */
    function Value(): Platdata
      reads this
    {
      Platdata(maxWidth, hostCaps, cfgGpio, cfgCard, cfgExtCd, detectExtCd, extCd)
    }

    /** The static initialiser of `s3c_hsmmc0_def_platdata`. */
    constructor Default(eint13: U32)
      ensures Value() == DefaultPlatdata(eint13)
    {
      maxWidth, hostCaps := 4, DEFAULT_CAPS;
      cfgGpio, cfgCard := Null, Null;
      cfgExtCd, detectExtCd := SetupSdhci0IrqCd, DetectSdhci0IrqCdHook;
      extCd := eint13;
    }

    /** s3c_sdhci0_set_platdata with this record as the default record and
        `pd` as the board's: the members are assigned one by one, the bus
        width unconditionally and each of the others only when set in `pd`. The board's
        record is only read, and the result holds even when `pd` is this
        very record. */
    method SetPlatdata(pd: SdhciPlatdata)
      modifies this
      ensures Value() == Merged(old(Value()), old(pd.Value()))
      ensures pd != this ==> unchanged(pd)
    {
      maxWidth := pd.maxWidth;
      hostCaps := OverrideWord(pd.hostCaps, hostCaps);
      cfgGpio := OverrideHook(pd.cfgGpio, cfgGpio);
      cfgCard := OverrideHook(pd.cfgCard, cfgCard);
      cfgExtCd := OverrideHook(pd.cfgExtCd, cfgExtCd);
      detectExtCd := OverrideHook(pd.detectExtCd, detectExtCd);
      extCd := OverrideWord(pd.extCd, extCd);
    }
  }
}
