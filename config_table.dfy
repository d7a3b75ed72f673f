/**
 * The global configuration table config[0 .. N_CONF-1] of both drivers.
 * Entries are doubles addressed by fixed offsets; +INFINITY marks an entry
 * as unset.  N_CONF is defined in var_struc.h, which is not part of this
 * model: it is the length of the array.
 */
module ConfigTable {
  import opened ExtReal

  /** The offsets the modelled code writes. */
  const Dimension := 0
  const FrameFlag := 8
  const Alpha := 41

  /**
   * The start of both drivers: every entry from 1 on is set to +INFINITY
   * and then the dimension entry config[0] to 1.
   */
  method InitConfig(config: array<Ext>)
    requires config.Length >= 1
    modifies config
    ensures config[Dimension] == Fin(1.0)
    ensures forall k :: 1 <= k < config.Length ==> config[k] == PosInf
  {
    var k := 1;
    while k < config.Length
      invariant 1 <= k <= config.Length
      invariant forall i :: 1 <= i < k ==> config[i] == PosInf
    {
      config[k] := PosInf;
      k := k + 1;
    }
    config[Dimension] := Fin(1.0);
  }
}
