/** The reconnect pacing of `ensureWiFi` and `ensureMQTT`
    (src/main.cpp:125-160): when a new attempt is allowed and how long the
    next one waits. The attempts themselves (`WiFi.begin`, `mqtt.connect`,
    `subscribe`) are not part of this model; whether the link is up, the
    clock `millis()` and the outcome of `mqtt.connect` are parameters. */
module Retry {

  /** `uint16_t`, the type of both retry intervals. */
  type Uint16 = x: int | 0 <= x < 0x1_0000

  /** `unsigned long` on the ESP32, the type of `millis()` and of the
      next-attempt times. */
  type Uint32 = x: int | 0 <= x < 0x1_0000_0000

  function Min(a: int, b: int): int { if a <= b then a else b }

  function Pow2(k: nat): (r: nat)
    ensures r >= 1
  {
    if k == 0 then 1 else 2 * Pow2(k - 1)
  }

  /** The WiFi interval before an attempt: 1000 the first time, then 1000
      more each time up to 5000 (src/main.cpp:129-130). */
  function NextWifiRetry(r: Uint16): (n: Uint16)
    ensures 1000 <= n && r <= n <= r + 1000
    ensures r < 5000 <==> r < n
  {
    if r < 1000 then 1000 else if r < 5000 then r + 1000 else r
  }

  /** The MQTT interval before an attempt (src/main.cpp:142-143): 1000 the
      first time, otherwise doubled and held to 30000. The doubled value is
      stored into the 16-bit variable before it is compared, so it wraps
      modulo 65536 first. */
  function NextMqttRetry(r: Uint16): (n: Uint16)
    ensures n <= 30000
    ensures r == 0 ==> n == 1000
    ensures 0 < r <= 30000 ==> r <= n
  {
    if r == 0 then 1000
    else
      var d := (r * 2) % 0x1_0000;
      if d > 30000 then 30000 else d
  }

  /** `now + interval` in `unsigned long`, wrapping with the clock. */
  function Deadline(now: Uint32, interval: Uint16): (d: Uint32)
    ensures d == now + interval || d == now + interval - 0x1_0000_0000
  {
    (now + interval) % 0x1_0000_0000
  }

  /** The WiFi interval after `k` attempts that did not bring the link up. */
  function WifiAfter(k: nat): Uint16 {
    if k == 0 then 0 else NextWifiRetry(WifiAfter(k - 1))
  }

  /** The MQTT interval after `k` failed connects. */
  function MqttAfter(k: nat): Uint16 {
    if k == 0 then 0 else NextMqttRetry(MqttAfter(k - 1))
  }

  /** The WiFi interval grows by 1000 per attempt and stops at 5000. */
  lemma {:induction false} WifiSchedule(k: nat)
    ensures k > 0 ==> WifiAfter(k) == Min(1000 * k, 5000)
  {
    if k > 1 {
      WifiSchedule(k - 1);
    }
  }

  /** The MQTT interval doubles from 1000 per failed connect and stops at
      30000. */
  lemma {:induction false} MqttSchedule(k: nat)
    ensures k > 0 ==> MqttAfter(k) == Min(1000 * Pow2(k - 1), 30000)
  {
    if k > 1 {
      MqttSchedule(k - 1);
      var r := MqttAfter(k - 1);
      MqttNoWrap(r);
      if 1000 * Pow2(k - 2) >= 30000 {
        assert 1000 * Pow2(k - 1) == 2 * (1000 * Pow2(k - 2));
      }
    }
  }

  /** From any interval the firmware can hold (at most 30000) the doubling
      never wraps the 16-bit variable, and the interval stays within
      1000..30000 once set. */
  lemma MqttNoWrap(r: Uint16)
    requires r <= 30000
    ensures NextMqttRetry(r) == (if r == 0 then 1000 else Min(2 * r, 30000))
    ensures r == 0 || r >= 500 ==> 1000 <= NextMqttRetry(r) <= 30000
  {
  }

  /** Where the 16-bit wrap would bite: 40000 doubled stores as 14464. */
  lemma MqttWrapOutsideReach()
    ensures NextMqttRetry(40000) == 14464
  {
  }

  /** The pacing state: the two next-attempt times and the two intervals. */
  class Backoff {
    var nextWifiTry: Uint32
    var nextMqttTry: Uint32
    var wifiRetryMs: Uint16
    var mqttRetryMs: Uint16

    /** All four start at zero, as globals do. */
    constructor ()
      ensures nextWifiTry == 0 && nextMqttTry == 0 && wifiRetryMs == 0 && mqttRetryMs == 0
    {
      nextWifiTry, nextMqttTry := 0, 0;
      wifiRetryMs, mqttRetryMs := 0, 0;
    }

    /** The intervals the firmware can reach: whole seconds up to 5 for
        WiFi, at most 30 seconds for MQTT. */
    predicate Reachable()
      reads this
    {
      wifiRetryMs % 1000 == 0 && wifiRetryMs <= 5000 && mqttRetryMs <= 30000
    }

    /** `ensureWiFi`: nothing while connected or before the next-attempt
        time; otherwise a longer interval, the next-attempt time moved, and
        an attempt (`attempt`). */
    method EnsureWiFi(now: Uint32, connected: bool) returns (attempt: bool)
      modifies this
      ensures attempt <==> !connected && now >= old(nextWifiTry)
      ensures !attempt ==> wifiRetryMs == old(wifiRetryMs) && nextWifiTry == old(nextWifiTry)
      ensures attempt ==> wifiRetryMs == NextWifiRetry(old(wifiRetryMs))
                          && nextWifiTry == Deadline(now, wifiRetryMs)
      ensures nextMqttTry == old(nextMqttTry) && mqttRetryMs == old(mqttRetryMs)
      ensures old(Reachable()) ==> Reachable()
    {
      attempt := false;
      if connected {
        return;
      }
      if now < nextWifiTry {
        return;
      }
      if wifiRetryMs < 1000 {
        wifiRetryMs := 1000;
      } else if wifiRetryMs < 5000 {
        wifiRetryMs := wifiRetryMs + 1000;
      }
      nextWifiTry := Deadline(now, wifiRetryMs);
      attempt := true;
    }

    /** `ensureMQTT`: nothing while connected, while WiFi is down or before
        the next-attempt time; otherwise a longer interval, the next-attempt
        time moved, a connect whose outcome is `connectOk`, and the interval
        back to 1000 when it succeeds. */
    method EnsureMqtt(now: Uint32, connected: bool, wifiUp: bool, connectOk: bool) returns (attempt: bool)
      modifies this
      ensures attempt <==> !connected && wifiUp && now >= old(nextMqttTry)
      ensures !attempt ==> mqttRetryMs == old(mqttRetryMs) && nextMqttTry == old(nextMqttTry)
      ensures attempt ==> nextMqttTry == Deadline(now, NextMqttRetry(old(mqttRetryMs)))
      ensures attempt ==> mqttRetryMs == (if connectOk then 1000 else NextMqttRetry(old(mqttRetryMs)))
      ensures nextWifiTry == old(nextWifiTry) && wifiRetryMs == old(wifiRetryMs)
      ensures old(Reachable()) ==> Reachable()
    {
      attempt := false;
      if connected {
        return;
      }
      if !wifiUp {
        return;
      }
      if now < nextMqttTry {
        return;
      }
      if mqttRetryMs == 0 {
        mqttRetryMs := 1000;
      } else {
        mqttRetryMs := (mqttRetryMs * 2) % 0x1_0000;
        if mqttRetryMs > 30000 {
          mqttRetryMs := 30000;
        }
      }
      nextMqttTry := Deadline(now, mqttRetryMs);
      attempt := true;
      if connectOk {
        mqttRetryMs := 1000;
      }
    }
  }
}
