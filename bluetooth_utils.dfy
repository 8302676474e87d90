/** Signal-strength conversion from BluetoothUtils. */
module BluetoothUtils {

  const FullSignalDbm: int := -35
  const NoSignalDbm: int := -100

  /**
   * `rssiToPercentage`: -100 dBm and below is 0%, -35 dBm and above is 100%,
   * linear in between. The Kotlin `/` truncates toward zero; its operands are
   * positive here, where it agrees with Dafny's `/`. No intermediate value
   * leaves the 32-bit range.
   */
  function RssiToPercentage(rssi: int): (percent: int)
    ensures 0 <= percent <= 100
    ensures percent == 100 <==> rssi >= FullSignalDbm
    ensures percent == 0 <==> rssi <= NoSignalDbm
    ensures NoSignalDbm < rssi < FullSignalDbm ==> 1 <= percent <= 98
  {
    if rssi >= FullSignalDbm then 100
    else if rssi <= NoSignalDbm then 0
    else ((rssi - NoSignalDbm) * 100) / (FullSignalDbm - NoSignalDbm)
  }

  /** In the linear range the percentage is the truncated quotient of the distance above -100 dBm. */
  lemma LinearRange(rssi: int)
    requires NoSignalDbm < rssi < FullSignalDbm
    ensures RssiToPercentage(rssi) * 65 <= (rssi + 100) * 100 < (RssiToPercentage(rssi) + 1) * 65
  {
  }

  /** Truncating division by 65 is monotone on non-negative numbers. */
  lemma DivMonotone(a: int, b: int)
    requires 0 <= a <= b
    ensures a / 65 <= b / 65
  {
    var qa, qb := a / 65, b / 65;
    assert a == 65 * qa + a % 65 && 0 <= a % 65 < 65;
    assert b == 65 * qb + b % 65 && 0 <= b % 65 < 65;
  }

  /** A stronger signal never shows a lower percentage. */
  lemma RssiToPercentageMonotone(weaker: int, stronger: int)
    requires weaker <= stronger
    ensures RssiToPercentage(weaker) <= RssiToPercentage(stronger)
  {
    if NoSignalDbm < weaker && stronger < FullSignalDbm {
      DivMonotone((weaker + 100) * 100, (stronger + 100) * 100);
    }
  }
}
